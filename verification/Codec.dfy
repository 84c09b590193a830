/** The framing between the servers: id, length, type name, body and checksum, read from a byte
    stream that arrives in pieces (server_codec/codec.cc, codec.h). */
module Codec {
  import Adler
  import opened Bytes

  const ID_LEN := 2
  const HEADER_LEN := 4
  const MIN_MESSAGE_LEN := 10
  const MAX_MESSAGE_LEN := 64 * 1024 * 1024

  /** A message: its connection id, its type name, and its serialized body. */
  datatype Message = Message(id: int, name: seq<Byte>, body: seq<Byte>)

  /** The message types the receiver was built with, and which bodies each of them accepts. */
  datatype Types = Types(known: set<seq<Byte>>, parses: (seq<Byte>, seq<Byte>) -> bool)

  datatype Error = InvalidLength | CheckSumError | InvalidNameLen | UnknownMessageType | ParseError

  datatype Parsed = Parsed(name: seq<Byte>, body: seq<Byte>) | Failed(error: Error)

  // ---- Integers on the wire, most significant byte first ----

  function Int16(v: int): seq<Byte> {
    [v / 256 % 256, v % 256]
  }

  function Int32(v: int): seq<Byte> {
    [v / 0x100_0000 % 256, v / 65536 % 256, v / 256 % 256, v % 256]
  }

  function ReadInt16(b: seq<Byte>): int
    requires |b| >= 2
  {
    var hi: int, lo: int := b[0], b[1];
    var v := 256 * hi + lo;
    if v < 0x8000 then v else v - 0x1_0000
  }

  function ReadInt32(b: seq<Byte>): int
    requires |b| >= 4
  {
    var b0: int, b1: int, b2: int, b3: int := b[0], b[1], b[2], b[3];
    var v := 0x100_0000 * b0 + 65536 * b1 + 256 * b2 + b3;
    if v < 0x8000_0000 then v else v - 0x1_0000_0000
  }

  lemma Int16Read(v: int, rest: seq<Byte>)
    requires -0x8000 <= v < 0x8000
    ensures ReadInt16(Int16(v) + rest) == v
  {
    assert v == 256 * (v / 256) + v % 256;
    if v < 0 {
      Wrap(v / 256, -128);
    } else {
      Wrap(v / 256, 0);
    }
  }

  lemma Wrap(q: int, lo: int)
    requires (lo == 0 && 0 <= q < 256) || (lo == -128 && -128 <= q < 0)
    ensures q % 256 == if lo == 0 then q else q + 256
  {
  }

  lemma Int32Read(v: int, rest: seq<Byte>)
    requires -0x8000_0000 <= v < 0x8000_0000
    ensures ReadInt32(Int32(v) + rest) == v
  {
    var q1, q2, q3 := v / 256, v / 65536, v / 0x100_0000;
    DigitsOf(v);
    if v < 0 {
      Wrap(q3, -128);
    } else {
      Wrap(q3, 0);
    }
    assert (Int32(v) + rest)[..4] == Int32(v);
  }

  lemma DigitsOf(v: int)
    ensures v == 256 * (v / 256) + v % 256
    ensures v / 256 == 256 * (v / 65536) + v / 256 % 256
    ensures v / 65536 == 256 * (v / 0x100_0000) + v / 65536 % 256
    ensures -0x8000_0000 <= v < 0x8000_0000 ==> -128 <= v / 0x100_0000 < 128
  {
    assert v / 256 / 256 == v / 65536;
    assert v / 65536 / 256 == v / 0x100_0000;
  }

  // ---- Frames ----

  function CheckSum(bytes: seq<Byte>): int { Adler.Packed(Adler.Checksum(bytes, Adler.Start(Adler.Seed(1)))) }

  /** The checksum zlib computes, from one plus the sum of the bytes and the sum of these sums. */
  lemma CheckSumIs(bytes: seq<Byte>)
    ensures CheckSum(bytes)
            == Adler.Packed(Adler.Sums(Adler.Total(bytes) % 65521, Adler.TotalOfTotals(bytes) % 65521))
  {
    Adler.PlainChecksum(bytes);
  }

  lemma CheckSumRange(bytes: seq<Byte>)
    ensures -0x8000_0000 <= CheckSum(bytes) < 0x8000_0000
  {
  }

  /** The part of a frame the checksum covers: name length, name with its terminator, body. */
  function Content(m: Message): seq<Byte> {
    Int32(|m.name| + 1) + m.name + [0] + m.body
  }

  function Payload(m: Message): seq<Byte> {
    Content(m) + Int32(CheckSum(Content(m)))
  }

  function Frame(m: Message): seq<Byte> {
    Int16(m.id) + Int32(|Payload(m)|) + Payload(m)
  }

  /** A message that can be sent and understood: 16-bit id, nonempty known type, accepted body, and
      a frame within the length limit. */
  predicate Sendable(t: Types, m: Message) {
    && -0x8000 <= m.id < 0x8000 && m.name != [] && m.name in t.known && t.parses(m.name, m.body)
    && |Payload(m)| <= MAX_MESSAGE_LEN
  }

  function Stream(ms: seq<Message>): seq<Byte> {
    if ms == [] then [] else Frame(ms[0]) + Stream(ms[1..])
  }

  /** parse: checksum, name length, type, body. */
  function Parse(t: Types, b: seq<Byte>): Parsed
    requires |b| >= MIN_MESSAGE_LEN
  {
    var n := |b|;
    if CheckSum(b[..n - HEADER_LEN]) != ReadInt32(b[n - HEADER_LEN..]) then Failed(CheckSumError)
    else
      var nameLen := ReadInt32(b);
      if !(2 <= nameLen <= n - 2 * HEADER_LEN) then Failed(InvalidNameLen)
      else
        var name := b[HEADER_LEN..HEADER_LEN + nameLen - 1];
        var body := b[HEADER_LEN + nameLen..n - HEADER_LEN];
        if name !in t.known then Failed(UnknownMessageType)
        else if !t.parses(name, body) then Failed(ParseError)
        else Parsed(name, body)
  }

  datatype Head = More | Bad(error: Error) | Ok(message: Message, size: nat)

  /** What stands at the front of the buffer: not enough bytes, an error, or a message. */
  function Front(t: Types, b: seq<Byte>): (h: Head)
    ensures h.Ok? ==> 0 < h.size <= |b|
  {
    if |b| < MIN_MESSAGE_LEN + HEADER_LEN + ID_LEN then More
    else
      var len := ReadInt32(b[ID_LEN..]);
      if len > MAX_MESSAGE_LEN || len < MIN_MESSAGE_LEN then Bad(InvalidLength)
      else if |b| < len + HEADER_LEN + ID_LEN then More
      else
        match Parse(t, b[HEADER_LEN + ID_LEN..HEADER_LEN + ID_LEN + len])
        case Failed(e) => Bad(e)
        case Parsed(name, body) => Ok(Message(ReadInt16(b), name, body), len + HEADER_LEN + ID_LEN)
  }

  /** Nothing is decided before 16 bytes are there, and then a length is refused exactly if it is not between
      10 and 64 MiB: the 10 bytes of a message with a name of one letter and no body, which is the shortest. */
  lemma LengthExact(t: Types, b: seq<Byte>)
    ensures |b| < 16 ==> Front(t, b) == More
    ensures |b| >= 16 ==>
              (Front(t, b) == Bad(InvalidLength) <==> ReadInt32(b[2..]) < 10 || ReadInt32(b[2..]) > 67108864)
  {
    hide Parse, ReadInt32, ReadInt16;
    if |b| >= 16 && 10 <= ReadInt32(b[2..]) <= |b| - 6 {
      ParseNeverLength(t, b[6..6 + ReadInt32(b[2..])]);
    }
  }

  lemma ParseNeverLength(t: Types, b: seq<Byte>)
    requires |b| >= MIN_MESSAGE_LEN
    ensures Parse(t, b) != Failed(InvalidLength)
  {
  }

  lemma ShortestMessage(m: Message)
    requires m.name != []
    ensures |Payload(m)| >= 10 && (|Payload(m)| == 10 <==> |m.name| == 1 && m.body == [])
  {
  }

  datatype Drained = Drained(messages: seq<Message>, rest: seq<Byte>)

  /** Take messages off the front until there is none. */
  function Drain(t: Types, b: seq<Byte>): Drained
    decreases |b|
  {
    match Front(t, b)
    case Ok(m, size) => var d := Drain(t, b[size..]); Drained([m] + d.messages, d.rest)
    case _ => Drained([], b)
  }

  // ---- Pieces do not matter ----

  lemma FrontStable(t: Types, x: seq<Byte>, y: seq<Byte>)
    ensures Front(t, x).Ok? || Front(t, x).Bad? ==> Front(t, x + y) == Front(t, x)
  {
    hide Parse, ReadInt16, ReadInt32;
    if |x| >= MIN_MESSAGE_LEN + HEADER_LEN + ID_LEN {
      ReadsFront(x, y);
      var len := ReadInt32(x[ID_LEN..]);
      if MIN_MESSAGE_LEN <= len && |x| >= len + HEADER_LEN + ID_LEN {
        var from := HEADER_LEN + ID_LEN;
        assert (x + y)[from..from + len] == x[from..from + len];
      }
    }
  }

  lemma ReadsFront(x: seq<Byte>, y: seq<Byte>)
    requires |x| >= 6
    ensures ReadInt16(x + y) == ReadInt16(x) && ReadInt32((x + y)[ID_LEN..]) == ReadInt32(x[ID_LEN..])
  {
  }

  /** Draining what has come so far and then the rest is draining everything at once: for every
      stream of bytes, well formed or not, and every place to cut it. */
  lemma {:induction false} DrainSplit(t: Types, x: seq<Byte>, y: seq<Byte>)
    ensures var d, e := Drain(t, x), Drain(t, Drain(t, x).rest + y);
            Drain(t, x + y) == Drained(d.messages + e.messages, e.rest)
    decreases |x|
  {
    hide Front;
    FrontStable(t, x, y);
    match Front(t, x) {
      case Ok(m, size) =>
        DrainSplit(t, x[size..], y);
        assert (x + y)[size..] == x[size..] + y;
      case _ =>
    }
  }

  // ---- Round trip ----

  lemma PayloadParses(t: Types, m: Message)
    requires Sendable(t, m)
    ensures |Payload(m)| >= MIN_MESSAGE_LEN && Parse(t, Payload(m)) == Parsed(m.name, m.body)
  {
    hide CheckSum, ReadInt32, Int32;
    var b, c := Payload(m), Content(m);
    var n := |b|;
    CheckSumRange(c);
    LengthOfInt32(CheckSum(c));
    LengthOfInt32(|m.name| + 1);
    assert b[..n - HEADER_LEN] == c;
    assert b[n - HEADER_LEN..] == Int32(CheckSum(c)) + [];
    Int32Read(CheckSum(c), []);
    assert b == Int32(|m.name| + 1) + (m.name + [0] + m.body + Int32(CheckSum(c)));
    Int32Read(|m.name| + 1, m.name + [0] + m.body + Int32(CheckSum(c)));
    assert b[HEADER_LEN..HEADER_LEN + |m.name|] == m.name;
    assert b[HEADER_LEN + |m.name| + 1..n - HEADER_LEN] == m.body;
  }

  lemma LengthOfInt32(v: int)
    ensures |Int32(v)| == 4
  {
  }

  /** A whole frame at the front is read back as the message it was built from. */
  lemma FrontOfFrame(t: Types, m: Message, rest: seq<Byte>)
    requires Sendable(t, m)
    ensures Front(t, Frame(m) + rest) == Ok(m, |Frame(m)|)
  {
    hide Parse, Payload, ReadInt32, Int32, ReadInt16, Int16;
    PayloadParses(t, m);
    var p := Payload(m);
    HeaderOf(m, p + rest);
    assert Frame(m) + rest == Int16(m.id) + Int32(|p|) + (p + rest);
    var b := Frame(m) + rest;
    assert b[HEADER_LEN + ID_LEN..HEADER_LEN + ID_LEN + |p|] == p;
  }

  lemma HeaderOf(m: Message, rest: seq<Byte>)
    requires -0x8000 <= m.id < 0x8000 && |Payload(m)| <= MAX_MESSAGE_LEN
    ensures var b := Int16(m.id) + Int32(|Payload(m)|) + rest;
            |Int16(m.id) + Int32(|Payload(m)|)| == 6
            && ReadInt16(b) == m.id && ReadInt32(b[ID_LEN..]) == |Payload(m)|
  {
    hide Payload, ReadInt32, Int32, ReadInt16;
    var n := |Payload(m)|;
    LengthOfInt32(n);
    var b := Int16(m.id) + Int32(n) + rest;
    assert b == Int16(m.id) + (Int32(n) + rest);
    Int16Read(m.id, Int32(n) + rest);
    assert b[ID_LEN..] == Int32(n) + rest;
    Int32Read(n, rest);
  }

  /** A frame that has not fully arrived is waited for. */
  lemma FrontOfPart(t: Types, m: Message, n: nat)
    requires Sendable(t, m) && n < |Frame(m)|
    ensures Front(t, Frame(m)[..n]) == More
  {
    hide Parse, Payload, ReadInt32, Int32, ReadInt16, Int16;
    PayloadParses(t, m);
    HeaderOf(m, Payload(m));
    var x, y := Frame(m)[..n], Frame(m)[n..];
    assert x + y == Frame(m);
    if n >= MIN_MESSAGE_LEN + HEADER_LEN + ID_LEN {
      ReadsFront(x, y);
    }
  }

  /** However much of a stream of frames has arrived, draining it delivers the frames that are
      complete, in order, and keeps a proper prefix of the next one. */
  lemma {:induction false} DrainPrefix(t: Types, ms: seq<Message>, n: nat) returns (k: nat)
    requires (forall m :: m in ms ==> Sendable(t, m)) && n <= |Stream(ms)|
    ensures k <= |ms| && Drain(t, Stream(ms)[..n]).messages == ms[..k]
    ensures k < |ms| ==> Drain(t, Stream(ms)[..n]).rest < Frame(ms[k])
    ensures k == |ms| ==> Drain(t, Stream(ms)[..n]).rest == []
  {
    hide Front, Frame;
    if ms == [] {
      k := 0;
      NothingThere(t);
    } else if n < |Frame(ms[0])| {
      k := 0;
      assert Stream(ms)[..n] == Frame(ms[0])[..n];
      FrontOfPart(t, ms[0], n);
    } else {
      var rest := n - |Frame(ms[0])|;
      var k' := DrainPrefix(t, ms[1..], rest);
      k := k' + 1;
      var s := Stream(ms[1..])[..rest];
      assert Stream(ms)[..n] == Frame(ms[0]) + s;
      FrontOfFrame(t, ms[0], s);
      assert (Frame(ms[0]) + s)[|Frame(ms[0])|..] == s;
      assert ms[..k] == [ms[0]] + ms[1..][..k'];
    }
  }

  lemma NothingThere(t: Types)
    ensures Front(t, []) == More
  {
  }

  /** The whole stream delivers exactly the messages sent. */
  lemma {:induction false} DrainStream(t: Types, ms: seq<Message>)
    requires forall m :: m in ms ==> Sendable(t, m)
    ensures Drain(t, Stream(ms)) == Drained(ms, [])
  {
    hide Front, Frame, Sendable;
    if ms == [] {
      NothingThere(t);
    } else {
      DrainStream(t, ms[1..]);
      FrontOfFrame(t, ms[0], Stream(ms[1..]));
      assert (Frame(ms[0]) + Stream(ms[1..]))[|Frame(ms[0])|..] == Stream(ms[1..]);
      assert ms == [ms[0]] + ms[1..];
    }
  }

  // ---- The codec ----

  /** fillEmptyBuffer and send: the frame is built up from its parts, the length and the id are put in front last. */
  method Send(m: Message) returns (buf: seq<Byte>)
    ensures buf == Frame(m)
  {
    buf := Int32(|m.name| + 1);
    buf := buf + m.name + [0];
    buf := buf + m.body;
    var checkSum := CheckSum(buf);
    buf := buf + Int32(checkSum);
    buf := Int32(|buf|) + buf;
    buf := Int16(m.id) + buf;
    assert buf == Frame(m);
  }

  /** The receiving end of one connection. */
  class ProtobufCodec {
    const types: Types
    var buf: seq<Byte>
    var delivered: seq<Message>
    var lastError: Head

    constructor (types: Types)
      ensures this.types == types && buf == [] && delivered == []
    {
      this.types, buf, delivered, lastError := types, [], [], More;
    }

    /** onMessage. */
    method OnMessage()
      modifies this
      ensures buf == Drain(types, old(buf)).rest
      ensures delivered == old(delivered) + Drain(types, old(buf)).messages
      ensures lastError == Front(types, buf) && !lastError.Ok?
    {
      hide Parse, ReadInt16, ReadInt32;
      ghost var all := Drain(types, buf);
      lastError := More;
      while |buf| >= MIN_MESSAGE_LEN + HEADER_LEN + ID_LEN
        invariant all.rest == Drain(types, buf).rest
        invariant old(delivered) + all.messages == delivered + Drain(types, buf).messages
        invariant lastError == More
        decreases |buf|
      {
        var id := ReadInt16(buf);
        var len := ReadInt32(buf[ID_LEN..]);
        if len > MAX_MESSAGE_LEN || len < MIN_MESSAGE_LEN {
          lastError := Bad(InvalidLength);
          break;
        } else if |buf| >= len + HEADER_LEN + ID_LEN {
          var parsed := Parse(types, buf[HEADER_LEN + ID_LEN..HEADER_LEN + ID_LEN + len]);
          match parsed {
            case Parsed(name, body) =>
              assert Front(types, buf) == Ok(Message(id, name, body), len + HEADER_LEN + ID_LEN);
              delivered := delivered + [Message(id, name, body)];
              buf := buf[len + HEADER_LEN + ID_LEN..];
            case Failed(error) =>
              lastError := Bad(error);
              break;
          }
        } else {
          break;
        }
      }
    }

    /** Bytes arrive in pieces and onMessage runs after each: what is delivered, and what stays in the
        buffer, depends only on the bytes, not on how they were cut. */
    method Receive(pieces: seq<seq<Byte>>)
      modifies this
      ensures pieces == [] ==> buf == old(buf) && delivered == old(delivered)
      ensures pieces != [] ==> delivered == old(delivered) + Drain(types, old(buf) + Concat(pieces)).messages
      ensures pieces != [] ==> buf == Drain(types, old(buf) + Concat(pieces)).rest
    {
      hide Drain, Front;
      ghost var start := buf;
      assert pieces[..0] == [];
      for i := 0 to |pieces|
        invariant i == 0 ==> buf == start && delivered == old(delivered)
        invariant i > 0 ==> buf == Drain(types, start + Concat(pieces[..i])).rest
        invariant i > 0 ==> delivered == old(delivered) + Drain(types, start + Concat(pieces[..i])).messages
      {
        assert pieces[..i + 1][..i] == pieces[..i];
        if i == 0 {
          assert Concat(pieces[..1]) == pieces[0];
        } else {
          DrainSplit(types, start + Concat(pieces[..i]), pieces[i]);
          assert start + Concat(pieces[..i]) + pieces[i] == start + Concat(pieces[..i + 1]);
        }
        buf := buf + pieces[i];
        OnMessage();
      }
      assert pieces[..|pieces|] == pieces;
    }
  }

  /** Any list of sendable messages, sent and cut up in any way, is delivered exactly, with nothing left over. */
  method SendAndReceive(types: Types, ms: seq<Message>, pieces: seq<seq<Byte>>) returns (delivered: seq<Message>)
    requires forall m :: m in ms ==> Sendable(types, m)
    requires Concat(pieces) == Stream(ms)
    ensures delivered == ms
  {
    hide Sendable, Drain, Front, Frame;
    var codec := new ProtobufCodec(types);
    codec.Receive(pieces);
    DrainStream(types, ms);
    assert [] + Concat(pieces) == Stream(ms);
    if pieces == [] {
      StreamNonempty(ms);
    }
    delivered := codec.delivered;
  }

  lemma StreamNonempty(ms: seq<Message>)
    ensures ms != [] ==> Stream(ms) != []
  {
  }
}
