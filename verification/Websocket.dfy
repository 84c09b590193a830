/** Websocket frames: the encoder and the incremental decoder (websocket/WebsocketContext.cc,
    WebsocketContext.h), against the frame layout of section 5.2 and the masking of section 5.3 of RFC 6455. */
module Websocket {
  import opened Bytes

  const PAYLOAD_SIZE_BASIC := 125
  const PAYLOAD_SIZE_16BIT := 126
  const PAYLOAD_SIZE_64BIT := 127
  const MAX_PAYLOAD_LENGTH := 0x40_0000
  const MASK_BYTES := 4

  /** Text, binary, close, ping and pong are handled; continuations and reserved opcodes are not. */
  predicate CanHandle(opcode: int) {
    opcode != 0 && !(3 <= opcode <= 7) && !(11 <= opcode <= 15)
  }

  /** The exclusive or of the low n bits. */
  function XorBits(a: nat, b: nat, n: nat): nat {
    if n == 0 then 0 else 2 * XorBits(a / 2, b / 2, n - 1) + (a + b) % 2
  }

  function TwoTo(n: nat): nat { if n == 0 then 1 else 2 * TwoTo(n - 1) }

  lemma {:induction false} XorRange(a: nat, b: nat, n: nat)
    ensures XorBits(a, b, n) < TwoTo(n)
  {
    if n > 0 {
      XorRange(a / 2, b / 2, n - 1);
    }
  }

  lemma {:induction false} XorBitsTwice(a: nat, b: nat, n: nat)
    requires a < TwoTo(n)
    ensures XorBits(XorBits(a, b, n), b, n) == a
  {
    if n > 0 {
      XorBitsTwice(a / 2, b / 2, n - 1);
      var q := XorBits(a / 2, b / 2, n - 1);
      var x := 2 * q + (a + b) % 2;
      LowBit(q, a, b);
      assert XorBits(x, b, n) == 2 * XorBits(x / 2, b / 2, n - 1) + (x + b) % 2;
    }
  }

  /** Taking a number with low bit (a + b) % 2 apart again. */
  lemma LowBit(q: nat, a: nat, b: nat)
    ensures (2 * q + (a + b) % 2) / 2 == q
    ensures (2 * q + (a + b) % 2 + b) % 2 == a % 2 && a == 2 * (a / 2) + a % 2
  {
    assert a + b == 2 * ((a + b) / 2) + (a + b) % 2;
    var s := (a + b) / 2;
    assert 2 * q + (a + b) % 2 + b == 2 * (q + b - s) + a;
  }

  lemma TwoToEight()
    ensures TwoTo(8) == 256
  {
    assert TwoTo(4) == 16;
  }

  function XorByte(a: Byte, b: Byte): Byte {
    XorRange(a, b, 8);
    TwoToEight();
    XorBits(a, b, 8)
  }

  /** The exclusive or of bytes as machine words. */
  lemma XorIsBitwise(x: bv8, y: bv8)
    ensures XorByte(x as int, y as int) == (x ^ y) as int
  {
    TwoToEight();
    XorWord(x, y, 8);
  }

  function Value(x: bv8): nat { x as int }

  function Half(x: bv8): bv8 { x >> 1 }

  function Odd(x: bv8): nat { (x & 1) as int }

  function XorWords(x: bv8, y: bv8): bv8 { x ^ y }

  lemma {:induction false} XorWord(x: bv8, y: bv8, n: nat)
    requires Value(x) < TwoTo(n) && Value(y) < TwoTo(n)
    ensures XorBits(Value(x), Value(y), n) == Value(XorWords(x, y))
    decreases n
  {
    hide Value, Half, Odd, XorWords, XorBits, TwoTo;
    XorBitsNext(Value(x), Value(y), n);
    LastBit(x);
    LastBit(y);
    LastBit(XorWords(x, y));
    XorParts(x, y);
    if n > 0 {
      XorWord(Half(x), Half(y), n - 1);
      ParityOfSum(Value(x) / 2, Value(y) / 2, Odd(x), Odd(y));
    }
  }

  lemma XorBitsNext(a: nat, b: nat, n: nat)
    ensures XorBits(a, b, 0) == 0 && TwoTo(0) == 1
    ensures n > 0 ==> XorBits(a, b, n) == 2 * XorBits(a / 2, b / 2, n - 1) + (a + b) % 2
    ensures n > 0 && a < TwoTo(n) && b < TwoTo(n) ==> a / 2 < TwoTo(n - 1) && b / 2 < TwoTo(n - 1)
  {
  }

  lemma LastBit(x: bv8)
    ensures Value(Half(x)) == Value(x) / 2 && Value(x) == 2 * (Value(x) / 2) + Odd(x)
  {
  }

  lemma XorParts(x: bv8, y: bv8)
    ensures Half(XorWords(x, y)) == XorWords(Half(x), Half(y))
    ensures Odd(XorWords(x, y)) == (Odd(x) + Odd(y)) % 2
    ensures Value(x) == 0 && Value(y) == 0 ==> Value(XorWords(x, y)) == 0
  {
  }

  lemma ParityOfSum(p: nat, q: nat, i: nat, j: nat)
    ensures (2 * p + i + (2 * q + j)) % 2 == (i + j) % 2
  {
  }

  lemma XorTwice(a: Byte, b: Byte)
    ensures XorByte(XorByte(a, b), b) == a
  {
    TwoToEight();
    XorBitsTwice(a, b, 8);
  }

  /** Masking and unmasking are the same operation. */
  function Masked(data: seq<Byte>, key: seq<Byte>): seq<Byte>
    requires |key| == MASK_BYTES
  {
    seq(|data|, i requires 0 <= i < |data| => XorByte(data[i], key[i % 4]))
  }

  lemma MaskedTwice(data: seq<Byte>, key: seq<Byte>)
    requires |key| == MASK_BYTES
    ensures Masked(Masked(data, key), key) == data
  {
    hide XorByte;
    forall i | 0 <= i < |data|
      ensures Masked(Masked(data, key), key)[i] == data[i]
    {
      XorTwice(data[i], key[i % 4]);
    }
  }

  /** A number in n bytes, most significant first. */
  function BigEndian(v: nat, n: nat): (b: seq<Byte>)
    ensures |b| == n
  {
    if n == 0 then [] else BigEndian(v / 256, n - 1) + [v % 256]
  }

  function Number(b: seq<Byte>): nat {
    if b == [] then 0 else 256 * Number(b[..|b| - 1]) + b[|b| - 1]
  }

  function Power(n: nat): nat {
    if n == 0 then 1 else 256 * Power(n - 1)
  }

  lemma {:induction false} NumberOf(v: nat, n: nat)
    requires v < Power(n)
    ensures Number(BigEndian(v, n)) == v
  {
    if n > 0 {
      NumberOf(v / 256, n - 1);
      assert BigEndian(v, n)[..n - 1] == BigEndian(v / 256, n - 1);
    }
  }

  // ---- Frames ----

  datatype Mask = Plain | Key(key: seq<Byte>)

  /** What getFrame is asked for. */
  datatype Frame = Frame(opcode: int, mask: Mask, payload: seq<Byte>)

  predicate ValidMask(m: Mask) { m.Key? ==> |m.key| == MASK_BYTES }

  predicate ValidFrame(f: Frame) {
    0 <= f.opcode < 16 && CanHandle(f.opcode) && ValidMask(f.mask) && |f.payload| <= MAX_PAYLOAD_LENGTH
  }

  /** The bytes of the extended length a 7-bit length announces. */
  function ExtendedLength(size: int): nat {
    if size == PAYLOAD_SIZE_16BIT then 2 else if size == PAYLOAD_SIZE_64BIT then 8 else 0
  }

  function SizeFor(len: nat): int {
    if len > 0xFFFF then PAYLOAD_SIZE_64BIT else if len > PAYLOAD_SIZE_BASIC then PAYLOAD_SIZE_16BIT else len
  }

  function Applied(data: seq<Byte>, m: Mask): seq<Byte>
    requires ValidMask(m)
  {
    if m.Key? then Masked(data, m.key) else data
  }

  /** The frame on the wire. */
  function Wire(f: Frame): seq<Byte>
    requires ValidFrame(f)
  {
    var size := SizeFor(|f.payload|);
    [128 + f.opcode, (if f.mask.Key? then 128 else 0) + size] + BigEndian(|f.payload|, ExtendedLength(size))
    + (if f.mask.Key? then f.mask.key else []) + Applied(f.payload, f.mask)
  }

  /** The opcodes that are not reserved, but for continuations. */
  lemma Opcodes(opcode: int)
    requires 0 <= opcode < 16
    ensures CanHandle(opcode) <==> opcode in {0x1, 0x2, 0x8, 0x9, 0xA}
  {
  }

  /** The examples of section 5.7 of RFC 6455: a text frame that says Hello, without and with a mask. */
  lemma HelloFrames()
    ensures ValidFrame(Frame(1, Plain, HELLO)) && ValidFrame(Frame(1, Key(HELLO_KEY), HELLO))
    ensures Wire(Frame(1, Plain, HELLO)) == [0x81, 0x05, 0x48, 0x65, 0x6c, 0x6c, 0x6f]
    ensures Wire(Frame(1, Key(HELLO_KEY), HELLO))
            == [0x81, 0x85, 0x37, 0xfa, 0x21, 0x3d, 0x7f, 0x9f, 0x4d, 0x51, 0x58]
  {
    hide XorByte, BigEndian;
    NoLength();
    HelloMasked();
  }

  lemma NoLength()
    ensures BigEndian(5, 0) == []
  {
  }

  lemma HelloMasked()
    ensures Masked(HELLO, HELLO_KEY) == [0x7f, 0x9f, 0x4d, 0x51, 0x58]
  {
    hide XorByte;
    XorIsBitwise(0x48, 0x37);
    XorIsBitwise(0x65, 0xfa);
    XorIsBitwise(0x6c, 0x21);
    XorIsBitwise(0x6c, 0x3d);
    XorIsBitwise(0x6f, 0x37);
  }

  const HELLO: seq<Byte> := [0x48, 0x65, 0x6c, 0x6c, 0x6f]
  const HELLO_KEY: seq<Byte> := [0x37, 0xfa, 0x21, 0x3d]

  /** ... and the first bytes of binary frames of 256 bytes and of 64 KiB. */
  lemma LongFrames(f: Frame)
    requires ValidFrame(f) && f.opcode == 2 && f.mask == Plain
    ensures |f.payload| == 256 ==> Wire(f) == [0x82, 0x7E, 0x01, 0x00] + f.payload
    ensures |f.payload| == 65536 ==> Wire(f) == [0x82, 0x7F, 0, 0, 0, 0, 0, 0x01, 0, 0] + f.payload
  {
    hide BigEndian;
    LongLengths();
  }

  lemma LongLengths()
    ensures BigEndian(256, 2) == [1, 0] && BigEndian(65536, 8) == [0, 0, 0, 0, 0, 1, 0, 0]
  {
    assert BigEndian(0, 2) == [0, 0] && BigEndian(0, 4) == [0, 0, 0, 0] && BigEndian(0, 5) == [0, 0, 0, 0, 0];
    assert BigEndian(1, 6) == BigEndian(0, 5) + [1];
    assert BigEndian(256, 7) == BigEndian(1, 6) + [0];
  }

  // ---- Reading one frame from the front of a stream ----

  datatype Head = More | Fatal | Got(opcode: int, payload: seq<Byte>, size: nat)

  function Opcode(b: seq<Byte>): int requires |b| >= 2 { b[0] % 16 }

  function Size(b: seq<Byte>): int requires |b| >= 2 { b[1] % 128 }

  predicate HasMask(b: seq<Byte>) requires |b| >= 2 { b[1] >= 128 }

  /** The length of the header up to the mask key. */
  function LengthEnd(b: seq<Byte>): nat
    requires |b| >= 2
  {
    2 + ExtendedLength(Size(b))
  }

  /** The announced payload length, once its bytes are there. */
  function PayloadLen(b: seq<Byte>): nat
    requires |b| >= 2 && |b| >= LengthEnd(b)
  {
    if ExtendedLength(Size(b)) == 0 then Size(b) else Number(b[2..LengthEnd(b)])
  }

  function HeaderEnd(b: seq<Byte>): nat
    requires |b| >= 2
  {
    LengthEnd(b) + if HasMask(b) then MASK_BYTES else 0
  }

  predicate TooLong(b: seq<Byte>)
    requires |b| >= 2 && |b| >= LengthEnd(b)
  {
    Size(b) == PAYLOAD_SIZE_64BIT && PayloadLen(b) > MAX_PAYLOAD_LENGTH
  }

  function MaskOf(b: seq<Byte>): Mask
    requires |b| >= 2 && |b| >= HeaderEnd(b)
  {
    if HasMask(b) then Key(b[LengthEnd(b)..HeaderEnd(b)]) else Plain
  }

  function Next(b: seq<Byte>): (h: Head)
    ensures h.Got? ==> 2 <= h.size <= |b|
  {
    if |b| < 2 then More
    else if !CanHandle(Opcode(b)) then Fatal
    else if |b| < LengthEnd(b) then More
    else if TooLong(b) then Fatal
    else if |b| < HeaderEnd(b) + PayloadLen(b) then More
    else
      var end := HeaderEnd(b) + PayloadLen(b);
      Got(Opcode(b), Applied(b[HeaderEnd(b)..end], MaskOf(b)), end)
  }

  /** A frame that is complete, or an error, does not depend on what follows. */
  lemma NextStable(x: seq<Byte>, y: seq<Byte>)
    ensures !Next(x).More? ==> Next(x + y) == Next(x)
  {
    hide Number, Masked;
    if |x| >= 2 && |x| >= LengthEnd(x) {
      assert (x + y)[2..LengthEnd(x)] == x[2..LengthEnd(x)];
      if |x| >= HeaderEnd(x) + PayloadLen(x) {
        var end := HeaderEnd(x) + PayloadLen(x);
        assert (x + y)[LengthEnd(x)..HeaderEnd(x)] == x[LengthEnd(x)..HeaderEnd(x)];
        assert (x + y)[HeaderEnd(x)..end] == x[HeaderEnd(x)..end];
      }
    }
  }

  /** A stream is refused exactly for an opcode that is not handled, or a 64-bit length above 4 MiB. */
  lemma RefusedExact(b: seq<Byte>)
    ensures Next(b) == Fatal <==>
            |b| >= 2
            && (b[0] % 16 !in {0x1, 0x2, 0x8, 0x9, 0xA}
                || (b[1] % 128 == 127 && |b| >= 10 && Number(b[2..10]) > 4194304))
  {
    hide Number, Masked, CanHandle;
    if |b| >= 2 {
      Opcodes(b[0] % 16);
    }
  }

  // ---- A whole stream ----

  datatype Item = Item(opcode: int, payload: seq<Byte>)

  datatype Drained = Drained(items: seq<Item>, rest: seq<Byte>)

  function Drain(b: seq<Byte>): Drained
    decreases |b|
  {
    match Next(b)
    case Got(opcode, payload, size) => var d := Drain(b[size..]); Drained([Item(opcode, payload)] + d.items, d.rest)
    case _ => Drained([], b)
  }

  lemma DrainGot(b: seq<Byte>, item: Item, size: nat)
    requires Next(b) == Got(item.opcode, item.payload, size)
    ensures 2 <= size <= |b|
    ensures Drain(b) == Drained([item] + Drain(b[size..]).items, Drain(b[size..]).rest)
  {
    hide Next;
  }

  lemma DrainNone(b: seq<Byte>)
    requires !Next(b).Got?
    ensures Drain(b) == Drained([], b)
  {
    hide Next;
  }

  lemma OneMoreItem(items: seq<Item>, item: Item, more: seq<Item>)
    ensures items + ([item] + more) == items + [item] + more
  {
  }

  /** The length bytes taken after the first two header bytes. */
  lemma LengthTaken(held: seq<Byte>, data: seq<Byte>, n: nat)
    requires |held| == 2 && n == ExtendedLength(Size(held)) && 0 < n <= |data|
    ensures var h := held + data[..n];
            && Opcode(h) == Opcode(held) && HasMask(h) == HasMask(held) && Size(h) == Size(held)
            && |h| == LengthEnd(h) && PayloadLen(h) == Number(data[..n]) && h + data[n..] == held + data
            && (TooLong(h) <==> n == 8 && Number(data[..n]) > MAX_PAYLOAD_LENGTH)
    ensures n == 8 && Number(data[..n]) > MAX_PAYLOAD_LENGTH && CanHandle(Opcode(held)) ==> Next(held + data) == Fatal
  {
    hide Number, Masked, CanHandle;
    var h := held + data[..n];
    assert h[2..2 + n] == data[..n];
    assert (held + data)[2..2 + n] == data[..n];
  }

  /** Draining what has come so far and then the rest is draining everything at once. */
  lemma {:induction false} DrainSplit(x: seq<Byte>, y: seq<Byte>)
    ensures var d, e := Drain(x), Drain(Drain(x).rest + y);
            Drain(x + y) == Drained(d.items + e.items, e.rest)
    decreases |x|
  {
    hide Next;
    NextStable(x, y);
    match Next(x) {
      case Got(opcode, payload, size) =>
        DrainSplit(x[size..], y);
        assert (x + y)[size..] == x[size..] + y;
      case _ =>
    }
  }

  // ---- Round trip ----

  lemma LengthForm(len: nat)
    requires len <= MAX_PAYLOAD_LENGTH
    ensures 0 <= SizeFor(len) < 128
    ensures ExtendedLength(SizeFor(len)) == 0 ==> SizeFor(len) == len
    ensures Number(BigEndian(len, ExtendedLength(SizeFor(len)))) == if ExtendedLength(SizeFor(len)) == 0 then 0 else len
  {
    assert Power(2) == 65536;
    assert Power(8) == 256 * (256 * (256 * (256 * (256 * (256 * Power(2))))));
    if len > 0xFFFF {
      NumberOf(len, 8);
    } else if len > PAYLOAD_SIZE_BASIC {
      NumberOf(len, 2);
    }
  }

  /** A frame at the front of a stream is read back: opcode, unmasked payload, and exactly its bytes. */
  lemma WireRead(f: Frame, rest: seq<Byte>)
    requires ValidFrame(f)
    ensures Next(Wire(f) + rest) == Got(f.opcode, f.payload, |Wire(f)|)
  {
    hide Number, BigEndian, Masked, CanHandle, SizeFor;
    var len := |f.payload|;
    LengthForm(len);
    var size := SizeFor(len);
    var ext := BigEndian(len, ExtendedLength(size));
    var key := if f.mask.Key? then f.mask.key else [];
    var data := Applied(f.payload, f.mask);
    AppliedTwice(f.payload, f.mask);
    var b := Wire(f) + rest;
    assert b == [128 + f.opcode, (if f.mask.Key? then 128 else 0) + size] + ext + key + data + rest;
    HeaderRead(b, f.opcode, f.mask.Key?, size);
    Parts([128 + f.opcode, (if f.mask.Key? then 128 else 0) + size], ext, key, data, rest);
  }

  lemma Parts(p: seq<Byte>, e: seq<Byte>, k: seq<Byte>, d: seq<Byte>, r: seq<Byte>)
    ensures var b, i, j := p + e + k + d + r, |p| + |e|, |p| + |e| + |k|;
            b[|p|..i] == e && b[i..j] == k && b[j..j + |d|] == d
  {
  }

  lemma HeaderRead(b: seq<Byte>, opcode: int, masked: bool, size: int)
    requires |b| >= 2 && 0 <= opcode < 16 && 0 <= size < 128
    requires b[0] == 128 + opcode && b[1] == (if masked then 128 else 0) + size
    ensures Opcode(b) == opcode && Size(b) == size && HasMask(b) == masked
  {
  }

  lemma AppliedTwice(data: seq<Byte>, m: Mask)
    requires ValidMask(m)
    ensures |Applied(data, m)| == |data| && Applied(Applied(data, m), m) == data
  {
    hide Masked;
    if m.Key? {
      MaskedTwice(data, m.key);
      MaskedLength(data, m.key);
    }
  }

  lemma MaskedLength(data: seq<Byte>, key: seq<Byte>)
    requires |key| == MASK_BYTES
    ensures |Masked(data, key)| == |data|
  {
  }

  function Stream(fs: seq<Frame>): seq<Byte>
    requires forall f :: f in fs ==> ValidFrame(f)
  {
    if fs == [] then [] else Wire(fs[0]) + Stream(fs[1..])
  }

  function Items(fs: seq<Frame>): seq<Item> {
    seq(|fs|, i requires 0 <= i < |fs| => Item(fs[i].opcode, fs[i].payload))
  }

  /** A stream of frames drains to exactly those frames, with nothing left. */
  lemma {:induction false} DrainStream(fs: seq<Frame>)
    requires forall f :: f in fs ==> ValidFrame(f)
    ensures Drain(Stream(fs)) == Drained(Items(fs), [])
  {
    hide Next, Wire, ValidFrame;
    if fs == [] {
      NothingThere();
    } else {
      DrainStream(fs[1..]);
      WireRead(fs[0], Stream(fs[1..]));
      assert (Wire(fs[0]) + Stream(fs[1..]))[|Wire(fs[0])|..] == Stream(fs[1..]);
      assert Items(fs) == [Item(fs[0].opcode, fs[0].payload)] + Items(fs[1..]);
    }
  }

  lemma NothingThere()
    ensures Next([]) == More
  {
  }

  /** Of all frames that say the same, masked or not alike, the encoder's is the shortest: the
      minimal number of bytes is used for the length, as section 5.2 of RFC 6455 demands. */
  lemma ShortestForm(f: Frame, b: seq<Byte>)
    requires ValidFrame(f) && Next(b).Got? && |b| >= 2
    requires Next(b).payload == f.payload && HasMask(b) == f.mask.Key?
    ensures |Wire(f)| <= Next(b).size
  {
    hide Masked, Number, BigEndian;
    AppliedTwice(f.payload, f.mask);
    var end := HeaderEnd(b) + PayloadLen(b);
    AppliedTwice(b[HeaderEnd(b)..end], MaskOf(b));
    if Size(b) == PAYLOAD_SIZE_16BIT {
      TwoBytes(b[2..4]);
    }
  }

  lemma TwoBytes(b: seq<Byte>)
    requires |b| == 2
    ensures Number(b) <= 0xFFFF
  {
    assert b[..1][..0] == [];
    assert Number(b[..1]) == b[0];
  }

  // ---- Buffers and frame data ----

  class Buffer {
    var data: seq<Byte>

    constructor ()
      ensures data == []
    {
      data := [];
    }

    method Append(bytes: seq<Byte>)
      modifies this
      ensures data == old(data) + bytes
    {
      data := data + bytes;
    }

    method Retrieve(n: nat)
      requires n <= |data|
      modifies this
      ensures data == old(data)[n..]
    {
      data := data[n..];
    }
  }

  class WebsocketData {
    var byte1: Byte
    var byte2: Byte
    var extendedPayloadLength: nat
    var payloadLen: nat
    var maskKey: seq<Byte>
    var payload: seq<Byte>

    constructor ()
      ensures byte1 == 0 && byte2 == 0 && extendedPayloadLength == 0 && payloadLen == 0 && payload == []
      ensures |maskKey| == MASK_BYTES
    {
      byte1, byte2, extendedPayloadLength, payloadLen := 0, 0, 0, 0;
      maskKey, payload := [0, 0, 0, 0], [];
    }

    function Opcode(): int reads this { byte1 % 16 }

    function PayloadSize(): int reads this { byte2 % 128 }

    predicate IsMasked() reads this { byte2 >= 128 }

    method Reset()
      modifies this
      ensures byte1 == 0 && byte2 == 0 && extendedPayloadLength == 0 && payloadLen == 0 && payload == []
      ensures maskKey == old(maskKey)
    {
      byte1, byte2, extendedPayloadLength, payloadLen, payload := 0, 0, 0, 0, [];
    }

    /** setMaskKey, which also sets the mask bit. */
    method SetMaskKey(key: seq<Byte>)
      requires |key| == MASK_BYTES
      modifies this`byte2, this`maskKey
      ensures byte2 == (if old(byte2) < 128 then old(byte2) + 128 else old(byte2)) && maskKey == key
    {
      if byte2 < 128 {
        byte2 := byte2 + 128;
      }
      maskKey := key;
    }

    /** setPayload: the shortest length form. */
    method SetPayload(bytes: seq<Byte>)
      requires |bytes| <= MAX_PAYLOAD_LENGTH && byte2 % 128 == 0 && payload == [] && extendedPayloadLength == 0
      modifies this`byte2, this`extendedPayloadLength, this`payloadLen, this`payload
      ensures payload == bytes && payloadLen == |bytes|
      ensures byte2 == old(byte2) + SizeFor(|bytes|) && extendedPayloadLength == ExtendedLength(SizeFor(|bytes|))
    {
      payloadLen := |bytes|;
      var size;
      if |bytes| > 0xFFFF {
        extendedPayloadLength := 8;
        size := PAYLOAD_SIZE_64BIT;
      } else if |bytes| > PAYLOAD_SIZE_BASIC {
        extendedPayloadLength := 2;
        size := PAYLOAD_SIZE_16BIT;
      } else {
        size := |bytes|;
      }
      byte2 := byte2 + size;
      payload := payload + bytes;
    }

    /** The loop of handlePayload and getPayload: copy, unmasking or masking if the mask bit is set. */
    method Through(bytes: seq<Byte>) returns (out: seq<Byte>)
      requires |maskKey| == MASK_BYTES
      ensures out == Applied(bytes, if IsMasked() then Key(maskKey) else Plain)
    {
      hide XorByte, Applied;
      out := [];
      ghost var m := if IsMasked() then Key(maskKey) else Plain;
      NothingApplied(m);
      assert bytes[..0] == [];
      for i := 0 to |bytes|
        invariant out == Applied(bytes[..i], m)
      {
        OneMoreApplied(bytes, m, i);
        out := out + [if IsMasked() then XorByte(bytes[i], maskKey[i % 4]) else bytes[i]];
      }
      assert bytes[..|bytes|] == bytes;
    }
  }

  lemma OneMoreApplied(data: seq<Byte>, m: Mask, i: nat)
    requires ValidMask(m) && i < |data|
    ensures Applied(data[..i + 1], m)
            == Applied(data[..i], m) + [if m.Key? then XorByte(data[i], m.key[i % 4]) else data[i]]
  {
    hide XorByte;
  }

  // ---- Encoder ----

  /** encode. */
  method Encode(buff: Buffer, data: WebsocketData)
    requires |data.maskKey| == MASK_BYTES
    modifies buff
    ensures buff.data == old(buff.data) + [data.byte1, data.byte2]
            + BigEndian(data.payloadLen, data.extendedPayloadLength)
            + (if data.IsMasked() then data.maskKey else [])
            + (if data.PayloadSize() > 0 then Applied(data.payload,
              if data.IsMasked() then Key(data.maskKey) else Plain) else [])
  {
    hide BigEndian, Applied;
    buff.Append([data.byte1]);
    buff.Append([data.byte2]);
    buff.Append(BigEndian(data.payloadLen, data.extendedPayloadLength));
    if data.IsMasked() {
      buff.Append(data.maskKey);
    }
    if data.PayloadSize() > 0 {
      var out := data.Through(data.payload);
      buff.Append(out);
    }
  }

  /** getFrame; the mask key, which the source draws at random, is given. */
  method GetFrame(buff: Buffer, f: Frame)
    requires ValidFrame(f)
    modifies buff
    ensures buff.data == old(buff.data) + Wire(f)
  {
    hide BigEndian, Applied, CanHandle, SizeFor;
    LengthForm(|f.payload|);
    NothingSized(f.mask);
    var data := new WebsocketData();
    data.byte1 := 128 + f.opcode;
    if f.mask.Key? {
      data.SetMaskKey(f.mask.key);
    }
    if f.payload != [] {
      data.SetPayload(f.payload);
    }
    Encode(buff, data);
    assert buff.data == old(buff.data) + Wire(f);
  }

  lemma NothingSized(m: Mask)
    requires ValidMask(m)
    ensures Applied([], m) == [] && BigEndian(0, 0) == [] && SizeFor(0) == 0
    ensures forall len: nat :: len > 0 ==> SizeFor(len) > 0
  {
  }

  lemma NothingApplied(m: Mask)
    requires ValidMask(m)
    ensures Applied([], m) == [] && BigEndian(0, 0) == []
  {
  }

  // ---- Decoder ----

  datatype ParserState = BasicHeader | ExtendedHeaderLength | GetMask | Application | Ready | Failed {
    function Rank(): nat {
      match this
      case BasicHeader => 4
      case ExtendedHeaderLength => 3
      case GetMask => 2
      case Application => 1
      case _ => 0
    }
  }

  class WebsocketContext {
    const reqData: WebsocketData
    var state: ParserState
    ghost var held: seq<Byte> // the bytes of the current frame taken so far

    constructor ()
      ensures state == BasicHeader && held == [] && Parsed() && fresh(reqData)
    {
      var data := new WebsocketData();
      reqData, state, held := data, BasicHeader, [];
    }

    /** What each parser state knows about the bytes taken so far. */
    ghost predicate Parsed()
      reads this, reqData
    {
      && |reqData.maskKey| == MASK_BYTES
      && match state
         case BasicHeader => held == [] && reqData.extendedPayloadLength == 0 && reqData.payload == []
         case ExtendedHeaderLength =>
           Header() && |held| == 2 && reqData.extendedPayloadLength == ExtendedLength(Size(held)) > 0
         case GetMask => Header() && LengthKnown() && |held| == LengthEnd(held) && HasMask(held)
         case Application =>
           Header() && LengthKnown() && |held| == HeaderEnd(held)
           && (HasMask(held) ==> reqData.maskKey == held[LengthEnd(held)..HeaderEnd(held)])
         case Ready => Next(held) == Got(reqData.Opcode(), reqData.payload, |held|)
         case Failed => true
    }

    ghost predicate Header()
      reads this, reqData
    {
      |held| >= 2 && held[0] == reqData.byte1 && held[1] == reqData.byte2 && CanHandle(Opcode(held))
        && reqData.payload == []
    }

    ghost predicate LengthKnown()
      requires |held| >= 2
      reads this, reqData
    {
      |held| >= LengthEnd(held) && !TooLong(held) && reqData.payloadLen == PayloadLen(held)
    }

    /** The bytes of the current frame and of the buffer together. */
    ghost function All(buff: Buffer): seq<Byte>
      reads this, buff
    {
      held + buff.data
    }

    /** STATE BASIC_HEADER. */
    method ReadBasic(buff: Buffer) returns (blocked: bool)
      requires Parsed() && state == BasicHeader
      modifies this, reqData, buff
      ensures Parsed() && All(buff) == old(All(buff))
      ensures blocked ==> state == old(state) && Next(All(buff)) == More
      ensures !blocked ==> state.Rank() < old(state.Rank())
      ensures state == Failed ==> Next(All(buff)) == Fatal
    {
      hide Number, Masked;
      if |buff.data| < 2 {
        return true;
      }
      ghost var all := buff.data;
      var b1, b2 := buff.data[0], buff.data[1];
      reqData.byte1, reqData.byte2 := b1, b2;
      if !CanHandle(reqData.Opcode()) {
        state := Failed;
        return false;
      }
      buff.Retrieve(2);
      held := all[..2];
      assert held + buff.data == all;
      reqData.payloadLen := reqData.PayloadSize();
      if reqData.PayloadSize() <= PAYLOAD_SIZE_BASIC {
        state := if reqData.IsMasked() then GetMask else if reqData.PayloadSize() == 0 then Ready else Application;
      } else {
        reqData.extendedPayloadLength := if reqData.PayloadSize() == PAYLOAD_SIZE_16BIT then 2 else 8;
        state := ExtendedHeaderLength;
      }
      return false;
    }

    /** STATE EXTENDED_HEADER_LENGTH. */
    method ReadLength(buff: Buffer) returns (blocked: bool)
      requires Parsed() && state == ExtendedHeaderLength
      modifies this, reqData, buff
      ensures Parsed() && All(buff) == old(All(buff))
      ensures blocked ==> state == old(state) && Next(All(buff)) == More
      ensures !blocked ==> state.Rank() < old(state.Rank())
      ensures state == Failed ==> Next(All(buff)) == Fatal
    {
      hide Number, Masked, CanHandle;
      var n := reqData.extendedPayloadLength;
      if |buff.data| < n {
        return true;
      }
      ghost var taken := held + buff.data[..n];
      var len := Number(buff.data[..n]);
      LengthTaken(held, buff.data, n);
      if n == 8 && len > MAX_PAYLOAD_LENGTH {
        state := Failed;
        return false;
      }
      reqData.payloadLen := len;
      buff.Retrieve(n);
      held := taken;
      state := if reqData.IsMasked() then GetMask else Application;
      return false;
    }

    /** STATE GET_MASK. */
    method ReadMask(buff: Buffer) returns (blocked: bool)
      requires Parsed() && state == GetMask
      modifies this, reqData, buff
      ensures Parsed() && All(buff) == old(All(buff)) && state != Failed
      ensures blocked ==> state == old(state) && Next(All(buff)) == More
      ensures !blocked ==> state.Rank() < old(state.Rank())
    {
      hide Number, Masked, CanHandle;
      ghost var all := All(buff);
      HeaderStable(held, buff.data);
      if |buff.data| < MASK_BYTES {
        return true;
      }
      ghost var was := held;
      var key := buff.data[..MASK_BYTES];
      reqData.SetMaskKey(key);
      buff.Retrieve(MASK_BYTES);
      held := was + key;
      HeaderStable(was, key);
      assert held + buff.data == all;
      assert held[|was|..|was| + MASK_BYTES] == key;
      state := if reqData.PayloadSize() == 0 then Ready else Application;
      if state == Ready {
        NothingApplied(Key(key));
        assert held[HeaderEnd(held)..HeaderEnd(held)] == [];
      }
      return false;
    }

    /** STATE APPLICATION. */
    method ReadPayload(buff: Buffer) returns (blocked: bool)
      requires Parsed() && state == Application
      modifies this, reqData, buff
      ensures Parsed() && All(buff) == old(All(buff)) && state != Failed
      ensures blocked ==> state == old(state) && Next(All(buff)) == More
      ensures !blocked ==> state.Rank() < old(state.Rank())
    {
      hide Number, Applied, CanHandle, Next;
      ghost var all := All(buff);
      var n := reqData.payloadLen;
      if |buff.data| < n {
        PayloadMissing(held, buff.data);
        return true;
      }
      ghost var was := held;
      var bytes := buff.data[..n];
      PayloadRead(was, bytes);
      var out := reqData.Through(bytes);
      reqData.payload := reqData.payload + out;
      buff.Retrieve(n);
      held := was + bytes;
      assert held + buff.data == all;
      state := Ready;
      return false;
    }

    /** decode: on the way through the parser states no byte is lost, and the outcome is what the
        frame layout says about all bytes so far. */
    method Decode(buff: Buffer) returns (ok: bool)
      requires Parsed() && (state == Failed ==> Next(All(buff)) == Fatal)
      modifies this, reqData, buff
      ensures Parsed() && All(buff) == old(All(buff)) && ok == (state != Failed)
      ensures state == Ready ==> Next(All(buff)) == Got(reqData.Opcode(), reqData.payload, |held|)
      ensures state == Failed ==> Next(All(buff)) == Fatal
      ensures state != Ready && state != Failed ==> Next(All(buff)) == More
    {
      hide Next, Header, LengthKnown;
      ghost var all := All(buff);
      var blocked := false;
      while state != Ready && state != Failed && !blocked
        invariant Parsed() && All(buff) == all
        invariant state == Failed ==> Next(all) == Fatal
        invariant blocked ==> Next(all) == More && state != Ready && state != Failed
        decreases state.Rank(), !blocked
      {
        if state == BasicHeader {
          blocked := ReadBasic(buff);
        } else if state == ExtendedHeaderLength {
          blocked := ReadLength(buff);
        } else if state == GetMask {
          blocked := ReadMask(buff);
        } else {
          blocked := ReadPayload(buff);
        }
      }
      if state == Ready {
        NextStable(held, buff.data);
      }
      ok := state != Failed;
    }

    /** reset, after a frame was taken. */
    method Reset()
      requires Parsed() && state == Ready
      modifies this, reqData
      ensures Parsed() && state == BasicHeader && held == []
    {
      reqData.Reset();
      state, held := BasicHeader, [];
    }

    /** The server's message callback: one decode for each arrival of bytes, so at most one frame is
        taken. No whole frame stays behind exactly if there was at most one. */
    method TakeOne(buff: Buffer) returns (taken: seq<Item>)
      requires Parsed() && state != Ready && (state == Failed ==> Next(All(buff)) == Fatal)
      modifies this, reqData, buff
      ensures Parsed() && state != Ready && (state == Failed ==> Next(All(buff)) == Fatal)
      ensures var d := Drain(old(All(buff)));
              |taken| == (if d.items == [] then 0 else 1) && taken == d.items[..|taken|]
      ensures Drain(All(buff)).items == Drain(old(All(buff))).items[|taken|..]
      ensures Drain(All(buff)).items == [] <==> |Drain(old(All(buff))).items| <= 1
      ensures Drain(All(buff)).rest == Drain(old(All(buff))).rest && (taken != [] ==> held == [])
    {
      hide Next, Header, LengthKnown;
      taken := [];
      ghost var b := All(buff);
      var ok := Decode(buff);
      if ok && state == Ready {
        taken := [Item(reqData.Opcode(), reqData.payload)];
        assert b[|held|..] == buff.data;
        Reset();
        assert All(buff) == buff.data;
      }
    }

    /** decode and reset until no whole frame is left. */
    method Collect(buff: Buffer) returns (items: seq<Item>)
      requires Parsed() && state != Ready && (state == Failed ==> Next(All(buff)) == Fatal)
      modifies this, reqData, buff
      ensures Parsed() && state != Ready && (state == Failed ==> Next(All(buff)) == Fatal)
      ensures Drain(old(All(buff))) == Drained(items, All(buff))
    {
      hide Next, Header, LengthKnown, Drain, Parsed;
      items := [];
      ghost var all := Drain(All(buff));
      var more := true;
      while more
        invariant Parsed() && state != Ready && (state == Failed ==> Next(All(buff)) == Fatal)
        invariant all == Drained(items + Drain(All(buff)).items, Drain(All(buff)).rest)
        invariant !more ==> Drain(All(buff)) == Drained([], All(buff))
        decreases more, |All(buff)|
      {
        ghost var b := All(buff);
        var ok := Decode(buff);
        more := ok && state == Ready;
        if more {
          var item := Item(reqData.Opcode(), reqData.payload);
          DrainGot(b, item, |held|);
          OneMoreItem(items, item, Drain(b[|held|..]).items);
          items := items + [item];
          assert b[|held|..] == buff.data;
          Reset();
          assert All(buff) == buff.data;
        } else {
          DrainNone(b);
        }
      }
    }
  }

  /** Bytes arrive in pieces, and after each all whole frames are taken. For every byte stream, well
      formed or not, what is read depends only on the bytes, not on how they were cut. */
  method Receive(pieces: seq<seq<Byte>>) returns (items: seq<Item>)
    ensures items == Drain(Concat(pieces)).items
  {
    hide Next, WebsocketContext.Parsed;
    var context := new WebsocketContext();
    var buff := new Buffer();
    items := [];
    NothingThere();
    assert pieces[..0] == [];
    for i := 0 to |pieces|
      invariant fresh(context) && fresh(context.reqData) && fresh(buff)
      invariant context.Parsed() && context.state != Ready
      invariant context.state == Failed ==> Next(context.All(buff)) == Fatal
      invariant Drain(Concat(pieces[..i])) == Drained(items, context.All(buff))
    {
      assert pieces[..i + 1][..i] == pieces[..i];
      ghost var rest := context.All(buff);
      DrainSplit(Concat(pieces[..i]), pieces[i]);
      NextStable(rest, pieces[i]);
      buff.Append(pieces[i]);
      assert context.All(buff) == rest + pieces[i];
      var more := context.Collect(buff);
      items := items + more;
    }
    assert pieces[..|pieces|] == pieces;
  }

  /** Two frames that arrive together: the callback takes the first, and the second stays behind whole. */
  method TwoAtOnce(f: Frame, h: Frame) returns (taken: seq<Item>, left: seq<Byte>)
    requires ValidFrame(f) && ValidFrame(h)
    ensures taken == [Item(f.opcode, f.payload)]
    ensures Drain(left) == Drained([Item(h.opcode, h.payload)], [])
  {
    hide Next, Wire, WebsocketContext.Parsed, ValidFrame;
    var context := new WebsocketContext();
    var buff := new Buffer();
    NothingThere();
    ghost var fs := [f, h];
    DrainTwo(f, h);
    buff.Append(Wire(f) + Wire(h));
    assert context.All(buff) == Wire(f) + Wire(h);
    taken := context.TakeOne(buff);
    assert taken != [] && context.held == [];
    left := buff.data;
    assert context.All(buff) == left;
  }

  lemma DrainTwo(f: Frame, h: Frame)
    requires ValidFrame(f) && ValidFrame(h)
    ensures Drain(Wire(f) + Wire(h)) == Drained([Item(f.opcode, f.payload), Item(h.opcode, h.payload)], [])
  {
    hide Next, Wire, ValidFrame;
    DrainStream([f, h]);
    assert [f, h][1..] == [h] && [h][1..] == [];
    assert Stream([h]) == Wire(h) + [];
    assert Stream([f, h]) == Wire(f) + Wire(h);
  }

  /** Any list of frames, built by getFrame, sent and cut up in any way, is read back exactly: the
      same opcodes and unmasked payloads in the same order. */
  method SendAndReceive(fs: seq<Frame>, pieces: seq<seq<Byte>>) returns (items: seq<Item>)
    requires forall f :: f in fs ==> ValidFrame(f)
    requires Concat(pieces) == Stream(fs)
    ensures items == Items(fs)
  {
    items := Receive(pieces);
    DrainStream(fs);
  }

  lemma PayloadMissing(x: seq<Byte>, y: seq<Byte>)
    requires |x| >= 2 && |x| >= LengthEnd(x) && |x| == HeaderEnd(x) && CanHandle(Opcode(x)) && !TooLong(x)
    requires |y| < PayloadLen(x)
    ensures Next(x + y) == More
  {
    hide Number, Applied, CanHandle;
    HeaderStable(x, y);
  }

  /** Header and payload together are a frame. */
  lemma PayloadRead(x: seq<Byte>, y: seq<Byte>)
    requires |x| >= 2 && |x| >= LengthEnd(x) && |x| == HeaderEnd(x) && CanHandle(Opcode(x)) && !TooLong(x)
    requires |y| == PayloadLen(x)
    ensures Next(x + y) == Got(Opcode(x), Applied(y, MaskOf(x)), |x + y|)
  {
    hide Number, Applied, CanHandle;
    HeaderStable(x, y);
    assert (x + y)[HeaderEnd(x)..HeaderEnd(x) + |y|] == y;
    assert (x + y)[LengthEnd(x)..HeaderEnd(x)] == x[LengthEnd(x)..HeaderEnd(x)];
  }

  /** What the header bytes say does not depend on what follows. */
  lemma HeaderStable(x: seq<Byte>, y: seq<Byte>)
    requires |x| >= 2 && |x| >= LengthEnd(x)
    ensures Opcode(x + y) == Opcode(x) && Size(x + y) == Size(x) && HasMask(x + y) == HasMask(x)
    ensures LengthEnd(x + y) == LengthEnd(x) && HeaderEnd(x + y) == HeaderEnd(x)
    ensures PayloadLen(x + y) == PayloadLen(x) && TooLong(x + y) == TooLong(x)
  {
    assert (x + y)[2..LengthEnd(x)] == x[2..LengthEnd(x)];
  }
}
