/** The 8-byte frame header, the type and flag byte, and the ACK frame: big-endian codecs
    and their inverses. */
module Frames {
  import opened Words
  import opened Sequence
  import opened AckRing
  import opened Wrappers
  import Bits

  const MAGIC: u16 := 0x4D4C
  const PROTOCOL_VERSION: u8 := 0x01
  const HEADER_SIZE := 8
  const WORD_BYTES := 4
  const BITMAP_BYTES := 16
  const ACK_FRAME_BYTES := 20
  const MAX_PAYLOAD := 0xFFFF

  // ---- big-endian numbers ----

  function BigEndian(v: nat, k: nat): (bs: seq<byte>)
    ensures |bs| == k
  {
    if k == 0 then [] else BigEndian(v / 256, k - 1) + [v % 256]
  }

  function FromBigEndian(bs: seq<byte>): nat {
    if bs == [] then 0 else 256 * FromBigEndian(bs[..|bs| - 1]) + bs[|bs| - 1]
  }

  lemma {:induction false} NumberRoundTrip(v: nat, k: nat)
    requires v < Bits.Pow2(8 * k)
    ensures FromBigEndian(BigEndian(v, k)) == v
  {
    if k > 0 {
      Bits.Pow2Add(8, 8 * (k - 1));
      assert Bits.Pow2(8) == 256;
      NumberRoundTrip(v / 256, k - 1);
      assert BigEndian(v, k)[..k - 1] == BigEndian(v / 256, k - 1);
    }
  }

  lemma {:induction false} BytesRoundTrip(bs: seq<byte>)
    ensures BigEndian(FromBigEndian(bs), |bs|) == bs
    ensures FromBigEndian(bs) < Bits.Pow2(8 * |bs|)
  {
    if bs != [] {
      BytesRoundTrip(bs[..|bs| - 1]);
      Bits.Pow2Add(8, 8 * (|bs| - 1));
      assert Bits.Pow2(8) == 256;
    }
  }

  lemma ShortNumbers()
    ensures Bits.Pow2(16) == 0x1_0000 && Bits.Pow2(32) == TWO32
  {
    assert Bits.Pow2(8) == 0x100;
    Bits.Pow2Add(8, 8);
    Bits.Pow2Add(16, 16);
  }

  /** The number of four bytes that come high byte first. */
  function HighFirst(a: int, b: int, c: int, d: int): int {
    0x100_0000 * a + 0x1_0000 * b + 0x100 * c + d
  }

  lemma FourBytes(b: seq<byte>)
    requires |b| == 4
    ensures FromBigEndian(b) == HighFirst(b[0], b[1], b[2], b[3])
  {
    var three, two, one := b[..3], b[..3][..2], b[..3][..2][..1];
    assert FromBigEndian(one) == b[0] by { assert one[..0] == []; }
    assert FromBigEndian(two) == 256 * FromBigEndian(one) + b[1];
    assert FromBigEndian(three) == 256 * FromBigEndian(two) + b[2];
  }

  /** Two bytes, high byte first. */
  function U16(hi: byte, lo: byte): u16 {
    256 * hi + lo
  }

  /** `to_be_bytes` of a u16. */
  function Pair(v: u16): (p: seq<byte>)
    ensures |p| == 2 && U16(p[0], p[1]) == v
    ensures forall hi: byte, lo: byte :: U16(hi, lo) == v ==> p == [hi, lo]
  {
    [v / 256, v % 256]
  }

  // ---- message types and the flag byte ----

  datatype MessageType =
    | Handshake | Heartbeat | Ack | Ctrl
    | Message | StreamStart | StreamChunk | StreamEnd | StreamAck
    | Request | Response | ResponseStream
    | Subscribe | Publish | Unsubscribe
    | Error

  function Code(t: MessageType): u8 {
    match t
    case Handshake => 0x01
    case Heartbeat => 0x02
    case Ack => 0x03
    case Ctrl => 0x04
    case Message => 0x10
    case StreamStart => 0x11
    case StreamChunk => 0x12
    case StreamEnd => 0x13
    case StreamAck => 0x14
    case Request => 0x20
    case Response => 0x21
    case ResponseStream => 0x22
    case Subscribe => 0x30
    case Publish => 0x31
    case Unsubscribe => 0x32
    case Error => 0xFF
  }

  function FromCode(v: u8): Result<MessageType, u8> {
    if v == 0x01 then Ok(Handshake)
    else if v == 0x02 then Ok(Heartbeat)
    else if v == 0x03 then Ok(Ack)
    else if v == 0x04 then Ok(Ctrl)
    else if v == 0x10 then Ok(Message)
    else if v == 0x11 then Ok(StreamStart)
    else if v == 0x12 then Ok(StreamChunk)
    else if v == 0x13 then Ok(StreamEnd)
    else if v == 0x14 then Ok(StreamAck)
    else if v == 0x20 then Ok(Request)
    else if v == 0x21 then Ok(Response)
    else if v == 0x22 then Ok(ResponseStream)
    else if v == 0x30 then Ok(Subscribe)
    else if v == 0x31 then Ok(Publish)
    else if v == 0x32 then Ok(Unsubscribe)
    else if v == 0xFF then Ok(Error)
    else Err(v)
  }

  const FLAG_COMPRESSED: u8 := 0x80
  const FLAG_ENCRYPTED: u8 := 0x40
  const TYPE_MASK: u8 := 0x3F
  const TYPE_ERROR_ON_WIRE: u8 := 0x3F

  function TypeBits(t: MessageType): nat {
    if t == Error then TYPE_ERROR_ON_WIRE else Bits.And(Code(t), TYPE_MASK)
  }

  function WithFlags(bits: nat, compressed: bool, encrypted: bool): nat {
    var flags := if compressed then Bits.Or(bits, FLAG_COMPRESSED) else bits;
    if encrypted then Bits.Or(flags, FLAG_ENCRYPTED) else flags
  }

  function EncodeFlags(compressed: bool, encrypted: bool, t: MessageType): nat {
    WithFlags(TypeBits(t), compressed, encrypted)
  }

  function DecodeFlags(flags: byte): (bool, bool, MessageType) {
    (Bits.And(flags, FLAG_COMPRESSED) != 0,
     Bits.And(flags, FLAG_ENCRYPTED) != 0,
     TypeOf(Bits.And(flags, TYPE_MASK)))
  }

  /** Unknown type bits read as Error. */
  function TypeOf(bits: nat): MessageType {
    if bits == TYPE_ERROR_ON_WIRE || bits >= 0x100 then Error
    else match FromCode(bits) case Ok(t) => t case Err(_) => Error
  }

  lemma Masks()
    ensures Bits.ShiftLeft(1, 7) == FLAG_COMPRESSED == Bits.Pow2(7)
    ensures Bits.ShiftLeft(1, 6) == FLAG_ENCRYPTED == Bits.Pow2(6)
    ensures Bits.Pow2(6) - 1 == TYPE_MASK
  {
  }

  /** The low six digits, and the two flags above them, take a byte apart. */
  lemma ByteParts(b: byte)
    ensures Bits.And(b, TYPE_MASK) == b % 64
    ensures Bits.And(b, FLAG_ENCRYPTED) != 0 <==> (b / 64) % 2 == 1
    ensures Bits.And(b, FLAG_COMPRESSED) != 0 <==> (b / 128) % 2 == 1
  {
    Masks();
    Bits.AndOnes(b, 6);
    Bits.MaskTest(b, 6);
    Bits.MaskTest(b, 7);
    Bits.DigitsAreArithmetic(b, 6);
    Bits.DigitsAreArithmetic(b, 7);
  }

  lemma AddCompressed(b: nat)
    requires (b / 128) % 2 == 0
    ensures Bits.Or(b, FLAG_COMPRESSED) == b + 128
  {
    Masks();
    Bits.DigitsAreArithmetic(b, 7);
    Bits.OrClearFlag(b, 7);
  }

  lemma AddEncrypted(b: nat)
    requires (b / 64) % 2 == 0
    ensures Bits.Or(b, FLAG_ENCRYPTED) == b + 64
  {
    Masks();
    Bits.DigitsAreArithmetic(b, 6);
    Bits.OrClearFlag(b, 6);
  }

  lemma WithFlagsAdds(bits: nat, compressed: bool, encrypted: bool)
    requires bits < 64
    ensures WithFlags(bits, compressed, encrypted)
            == bits + (if compressed then 128 else 0) + (if encrypted then 64 else 0)
  {
    if compressed { AddCompressed(bits); }
    var flags := if compressed then bits + 128 else bits;
    assert (flags / 64) % 2 == 0;
    if encrypted { AddEncrypted(flags); }
  }

  /** Taking a flag byte apart finds the six type bits and the two flags it was summed from. */
  lemma FlagsComeApart(bits: nat, compressed: bool, encrypted: bool, b: byte)
    requires bits < 64 && b == bits + (if compressed then 128 else 0) + (if encrypted then 64 else 0)
    ensures Bits.And(b, TYPE_MASK) == bits
    ensures Bits.And(b, FLAG_ENCRYPTED) != 0 <==> encrypted
    ensures Bits.And(b, FLAG_COMPRESSED) != 0 <==> compressed
  {
    SumParts(bits, compressed, encrypted, b);
    ByteParts(b);
  }

  lemma SumParts(bits: nat, compressed: bool, encrypted: bool, b: byte)
    requires bits < 64 && b == bits + (if compressed then 128 else 0) + (if encrypted then 64 else 0)
    ensures b % 64 == bits && ((b / 64) % 2 == 1 <==> encrypted) && ((b / 128) % 2 == 1 <==> compressed)
  {
    if compressed {
      assert b / 128 == 1;
    } else {
      assert b / 128 == 0;
    }
  }

  lemma CodesFit(t: MessageType)
    ensures FromCode(Code(t)) == Ok(t)
    ensures t != Error ==> Code(t) < 0x3F
  {
  }

  lemma TypeBitsOf(t: MessageType)
    ensures TypeBits(t) == (if t == Error then 0x3F else Code(t)) && TypeBits(t) < 64
  {
    CodesFit(t);
    if t != Error { SmallCode(Code(t)); }
  }

  lemma SmallCode(c: u8)
    requires c < 64
    ensures Bits.And(c, TYPE_MASK) == c
  {
    ByteParts(c);
  }

  lemma TypeOfTypeBits(t: MessageType)
    ensures TypeOf(TypeBits(t)) == t
  {
    TypeBitsOf(t);
    CodesFit(t);
  }

  /** Every combination of flags and type survives the flag byte. */
  lemma FlagsRoundTrip(compressed: bool, encrypted: bool, t: MessageType)
    ensures EncodeFlags(compressed, encrypted, t) < 256
    ensures DecodeFlags(EncodeFlags(compressed, encrypted, t)) == (compressed, encrypted, t)
  {
    var bits := TypeBits(t);
    TypeBitsOf(t);
    WithFlagsAdds(bits, compressed, encrypted);
    FlagsComeApart(bits, compressed, encrypted, WithFlags(bits, compressed, encrypted));
    TypeOfTypeBits(t);
  }

  /** The two flags are the top bits of the byte, the type its low six. */
  lemma FlagsLayout(compressed: bool, encrypted: bool, t: MessageType)
    ensures EncodeFlags(compressed, encrypted, t)
            == (if compressed then 0x80 else 0) + (if encrypted then 0x40 else 0)
               + (if t == Error then 0x3F else Code(t))
  {
    TypeBitsOf(t);
    WithFlagsAdds(TypeBits(t), compressed, encrypted);
  }

  lemma CodesAreInverse(v: u8)
    requires FromCode(v).Ok?
    ensures Code(FromCode(v).value) == v
  {
  }

  lemma TypeBitsInverse(bits: nat)
    requires bits < 64
    ensures TypeBits(TypeOf(bits)) == bits <==> bits == TYPE_ERROR_ON_WIRE || FromCode(bits).Ok?
  {
    TypeBitsOf(TypeOf(bits));
    if FromCode(bits).Ok? { CodesAreInverse(bits); }
  }

  lemma ByteSum(b: byte)
    ensures b == b % 64 + (if (b / 128) % 2 == 1 then 128 else 0) + (if (b / 64) % 2 == 1 then 64 else 0)
  {
  }

  /** A flag byte off the wire survives decoding exactly when its type bits are known. */
  lemma FlagsCanonical(b: byte)
    ensures var (c, e, t) := DecodeFlags(b);
            EncodeFlags(c, e, t) == b <==> b % 64 == TYPE_ERROR_ON_WIRE || FromCode(b % 64).Ok?
  {
    var (c, e, t) := DecodeFlags(b);
    ByteParts(b);
    ByteSum(b);
    var bits := TypeBits(t);
    TypeBitsOf(t);
    WithFlagsAdds(bits, c, e);
    TypeBitsInverse(b % 64);
  }

  // ---- frames ----

  datatype Frame = Frame(magic: u16, version: u8, flags: byte, seq16: u16, length: u16, payload: seq<byte>)

  datatype FrameError = TooShort | BadMagic | BadVersion | Truncated

  /** The bytes of a frame.  The header always carries this protocol's magic and version,
      and the payload's length cut to 16 bits, whatever the frame's own fields say. */
  function Encoded(f: Frame): seq<byte> {
    Pair(MAGIC) + [PROTOCOL_VERSION, f.flags] + Pair(f.seq16) + Pair(|f.payload| % 0x1_0000) + f.payload
  }

  method EncodeFrame(f: Frame) returns (buf: seq<byte>)
    ensures buf == Encoded(f)
    ensures |buf| == HEADER_SIZE + |f.payload| && buf[HEADER_SIZE..] == f.payload
    // the header, high bytes first
    ensures U16(buf[0], buf[1]) == MAGIC && buf[2] == PROTOCOL_VERSION && buf[3] == f.flags
    ensures U16(buf[4], buf[5]) == f.seq16 && U16(buf[6], buf[7]) == |f.payload| % 0x1_0000
  {
    var length := |f.payload| % 0x1_0000;
    buf := [];
    buf := buf + Pair(MAGIC);
    buf := buf + [PROTOCOL_VERSION];
    buf := buf + [f.flags];
    buf := buf + Pair(f.seq16);
    buf := buf + Pair(length);
    buf := buf + f.payload;
    assert buf == Encoded(f);
    HeaderOf(f, []);
    assert Encoded(f) + [] == Encoded(f) && f.payload + [] == f.payload;
  }

  function Decode(data: seq<byte>): Result<Frame, FrameError> {
    if |data| < HEADER_SIZE then Err(TooShort)
    else if U16(data[0], data[1]) != MAGIC then Err(BadMagic)
    else if data[2] != PROTOCOL_VERSION then Err(BadVersion)
    else
      var length := U16(data[6], data[7]);
      if |data| < HEADER_SIZE + length then Err(Truncated)
      else Ok(Frame(MAGIC, data[2], data[3], U16(data[4], data[5]), length, data[HEADER_SIZE..HEADER_SIZE + length]))
  }

  lemma HeaderOf(f: Frame, tail: seq<byte>)
    ensures var data := Encoded(f) + tail;
            && |data| >= HEADER_SIZE
            && U16(data[0], data[1]) == MAGIC && data[2] == PROTOCOL_VERSION && data[3] == f.flags
            && U16(data[4], data[5]) == f.seq16 && U16(data[6], data[7]) == |f.payload| % 0x1_0000
            && data[HEADER_SIZE..] == f.payload + tail
  {
    var header := Pair(MAGIC) + [PROTOCOL_VERSION, f.flags] + Pair(f.seq16) + Pair(|f.payload| % 0x1_0000);
    assert Encoded(f) + tail == header + (f.payload + tail);
  }

  /** What the receiver reads of an encoded frame, whatever follows it in the buffer: the
      canonical header and the payload up to the length the header could carry. */
  lemma DecodeOfEncoded(f: Frame, tail: seq<byte>)
    ensures var length := |f.payload| % 0x1_0000;
            Decode(Encoded(f) + tail)
            == Ok(Frame(MAGIC, PROTOCOL_VERSION, f.flags, f.seq16, length, f.payload[..length]))
  {
    var length := |f.payload| % 0x1_0000;
    var data := Encoded(f) + tail;
    HeaderOf(f, tail);
    assert data[HEADER_SIZE..HEADER_SIZE + length] == data[HEADER_SIZE..][..length] == f.payload[..length];
  }

  /** A payload survives the frame codec exactly when its length fits the 16-bit field. */
  lemma PayloadSurvives(f: Frame, tail: seq<byte>)
    ensures Decode(Encoded(f) + tail).Ok?
    ensures Decode(Encoded(f) + tail).value.payload == f.payload <==> |f.payload| <= MAX_PAYLOAD
    ensures |f.payload| <= MAX_PAYLOAD ==>
      Decode(Encoded(f) + tail).value
      == f.(magic := MAGIC, version := PROTOCOL_VERSION, length := |f.payload|)
  {
    DecodeOfEncoded(f, tail);
    var length := |f.payload| % 0x1_0000;
    assert |f.payload[..length]| == length;
    if |f.payload| <= MAX_PAYLOAD { assert f.payload[..length] == f.payload; }
  }

  /** Whatever decodes re-encodes to the bytes it was read from. */
  lemma EncodedOfDecode(data: seq<byte>)
    requires Decode(data).Ok?
    ensures var f := Decode(data).value;
            Encoded(f) == data[..HEADER_SIZE + f.length] && Encoded(f) <= data
  {
    var f := Decode(data).value;
    assert |f.payload| % 0x1_0000 == f.length;
    assert Pair(MAGIC) == [data[0], data[1]];
    assert Pair(f.seq16) == [data[4], data[5]];
    assert Pair(f.length) == [data[6], data[7]];
  }

  /** A buffer decodes exactly when it begins with the encoding of some frame that fits. */
  lemma DecodesIffEncoding(data: seq<byte>)
    ensures Decode(data).Ok?
            <==> exists f: Frame, tail: seq<byte> :: |f.payload| <= MAX_PAYLOAD && data == Encoded(f) + tail
  {
    if Decode(data).Ok? {
      var f := Decode(data).value;
      EncodedOfDecode(data);
      assert data == Encoded(f) + data[HEADER_SIZE + f.length..];
    }
    if f: Frame, tail: seq<byte> :| |f.payload| <= MAX_PAYLOAD && data == Encoded(f) + tail {
      PayloadSurvives(f, tail);
    }
  }

  // ---- ACK frames ----

  function EncodeAck(a: AckFrame): seq<byte> {
    BigEndian(a.ack, WORD_BYTES) + BigEndian(a.bitmap, BITMAP_BYTES)
  }

  /** The 20 bytes of an ACK; anything after them is ignored. */
  function DecodeAck(b: seq<byte>): Result<AckFrame, FrameError> {
    if |b| < ACK_FRAME_BYTES then Err(TooShort)
    else
      AckNumbersFit(b);
      Ok(AckFrame(FromBigEndian(b[0..4]), FromBigEndian(b[4..20])))
  }

  lemma AckNumbersFit(b: seq<byte>)
    requires |b| >= ACK_FRAME_BYTES
    ensures FromBigEndian(b[0..4]) < TWO32 && FromBigEndian(b[4..20]) < POW2_128
  {
    BytesRoundTrip(b[0..4]);
    BytesRoundTrip(b[4..20]);
    ShortNumbers();
    Pow2Of128();
  }

  lemma AckRoundTrip(a: AckFrame, tail: seq<byte>)
    ensures DecodeAck(EncodeAck(a) + tail) == Ok(a)
  {
    var b := EncodeAck(a) + tail;
    assert b[0..4] == BigEndian(a.ack, WORD_BYTES);
    assert b[4..20] == BigEndian(a.bitmap, BITMAP_BYTES);
    ShortNumbers();
    Pow2Of128();
    NumberRoundTrip(a.ack, WORD_BYTES);
    NumberRoundTrip(a.bitmap, BITMAP_BYTES);
  }

  /** The word comes first, its high byte first. */
  lemma AckLayout(a: AckFrame)
    ensures var b := EncodeAck(a);
            |b| == 20 && HighFirst(b[0], b[1], b[2], b[3]) == a.ack
  {
    ShortNumbers();
    NumberRoundTrip(a.ack, WORD_BYTES);
    FourBytes(BigEndian(a.ack, WORD_BYTES));
  }

  function AckAsFrame(a: AckFrame): (f: Frame)
  {
    FlagsRoundTrip(false, false, Ack);
    Frame(MAGIC, PROTOCOL_VERSION, EncodeFlags(false, false, Ack), 0, |EncodeAck(a)|, EncodeAck(a))
  }

  /** An ACK on the wire is recognised as one and read back whole. */
  lemma AckFrameRecognised(a: AckFrame, tail: seq<byte>)
    ensures var d := Decode(Encoded(AckAsFrame(a)) + tail);
            d.Ok? && DecodeFlags(d.value.flags).2 == Ack && DecodeAck(d.value.payload) == Ok(a)
  {
    FlagsRoundTrip(false, false, Ack);
    PayloadSurvives(AckAsFrame(a), tail);
    AckRoundTrip(a, []);
    assert EncodeAck(a) + [] == EncodeAck(a);
  }
}
