// The fixed 32-byte frame header (aetherlink-proto/src/frame.rs).

module Frames {
  import opened Base

  const MAGIC: u16 := 0xAE10
  const PROTOCOL_VERSION: byte := 1
  const HEADER_LEN: nat := 32
  const MAX_FRAME_PAYLOAD: u32 := 8 * 1024 * 1024
  const KNOWN_FLAGS: u16 := 1

  datatype MsgType = Control | FileData | FileEnd | Keepalive

  function Code(t: MsgType): byte {
    match t
    case Control => 0
    case FileData => 1
    case FileEnd => 2
    case Keepalive => 3
  }

  function FromCode(b: byte): Result<MsgType, WireError> {
    if b == 0 then Ok(Control)
    else if b == 1 then Ok(FileData)
    else if b == 2 then Ok(FileEnd)
    else if b == 3 then Ok(Keepalive)
    else Err(UnknownMessageType(b))
  }

  datatype FrameHeader = FrameHeader(msgType: MsgType, flags: u16, fileId: u64, offset: u64, length: u32) {

    /** The headers a peer accepts: known flags, a bounded payload, and none on a keepalive. */
    predicate Acceptable() {
      && flags <= KNOWN_FLAGS
      && length <= MAX_FRAME_PAYLOAD
      && (msgType == Keepalive ==> length == 0)
    }

    /** The fields as they go on the wire, reserved ones zero. */
    function Raw(): RawHeader {
      RawHeader(MAGIC, PROTOCOL_VERSION, Code(msgType), flags, 0, fileId, offset, length, 0)
    }

    /** `to_bytes`. */
    function ToBytes(): (b: seq<byte>)
      ensures |b| == HEADER_LEN
    {
      Raw().Serialize()
    }
  }

  /** `FrameHeader::new` carries no flags. */
  function NewHeader(msgType: MsgType, fileId: u64, offset: u64, length: u32): FrameHeader {
    FrameHeader(msgType, 0, fileId, offset, length)
  }

  // ----- the byte layout ----------------------------------------------------------

  /** Every field of the header before any is checked. */
  datatype RawHeader = RawHeader(magic: u16, version: byte, code: byte, flags: u16, low: u16,
                                 fileId: u64, offset: u64, length: u32, high: u32)
  {
    /** All fields little-endian, in wire order. */
    function Serialize(): (b: seq<byte>)
      ensures |b| == HEADER_LEN
    {
      ToLE(magic, 2) + [version, code] + ToLE(flags, 2) + ToLE(low, 2)
      + ToLE(fileId, 8) + ToLE(offset, 8) + ToLE(length, 4) + ToLE(high, 4)
    }
  }

  function Parse(b: seq<byte>): RawHeader
    requires |b| >= HEADER_LEN
  {
    RawHeader(U16(b[0..2]), b[2], b[3], U16(b[4..6]), U16(b[6..8]),
              U64(b[8..16]), U64(b[16..24]), U32(b[24..28]), U32(b[28..32]))
  }

  function U16(s: seq<byte>): (x: u16)
    requires |s| == 2
    ensures ToLE(x, 2) == s
  {
    ToLEFromLE(s);
    Pow256Values();
    FromLE(s)
  }

  function U32(s: seq<byte>): (x: u32)
    requires |s| == 4
    ensures ToLE(x, 4) == s
  {
    ToLEFromLE(s);
    Pow256Values();
    FromLE(s)
  }

  function U64(s: seq<byte>): (x: u64)
    requires |s| == 8
    ensures ToLE(x, 8) == s
  {
    ToLEFromLE(s);
    Pow256Values();
    FromLE(s)
  }

  lemma Slices(a: seq<byte>, b: seq<byte>, c: seq<byte>, d: seq<byte>,
               e: seq<byte>, f: seq<byte>, g: seq<byte>, h: seq<byte>)
    requires |a| == |b| == |c| == |d| == 2 && |e| == |f| == 8 && |g| == |h| == 4
    ensures
      var s := a + b + c + d + e + f + g + h;
      && s[0..2] == a && s[2] == b[0] && s[3] == b[1] && s[4..6] == c && s[6..8] == d
      && s[8..16] == e && s[16..24] == f && s[24..28] == g && s[28..32] == h
  {
  }

  lemma ParseSerialize(r: RawHeader)
    ensures Parse(r.Serialize()) == r
  {
    Slices(ToLE(r.magic, 2), [r.version, r.code], ToLE(r.flags, 2), ToLE(r.low, 2),
           ToLE(r.fileId, 8), ToLE(r.offset, 8), ToLE(r.length, 4), ToLE(r.high, 4));
    Pow256Values();
    FromLEToLE(r.magic, 2);
    FromLEToLE(r.flags, 2);
    FromLEToLE(r.low, 2);
    FromLEToLE(r.fileId, 8);
    FromLEToLE(r.offset, 8);
    FromLEToLE(r.length, 4);
    FromLEToLE(r.high, 4);
  }

  lemma SerializeParse(b: seq<byte>)
    requires |b| == HEADER_LEN
    ensures Parse(b).Serialize() == b
  {
    assert [b[2], b[3]] == b[2..4];
    assert b == b[0..2] + b[2..4] + b[4..6] + b[6..8] + b[8..16] + b[16..24] + b[24..28] + b[28..32];
  }

  // ----- the layout on the wire -------------------------------------------------------

  /** Where every field of a header stands on the wire, byte by byte. */
  lemma HeaderLayout(h: FrameHeader)
    ensures
      var b := h.ToBytes();
      && |b| == 32 && b[0] == 0x10 && b[1] == 0xAE && b[2] == 1
      && b[3] == (match h.msgType case Control => 0 case FileData => 1 case FileEnd => 2 case Keepalive => 3)
      && StandsAt(b, 4, 2, h.flags) && b[6] == b[7] == 0
      && StandsAt(b, 8, 8, h.fileId) && StandsAt(b, 16, 8, h.offset)
      && StandsAt(b, 24, 4, h.length) && b[28] == b[29] == b[30] == b[31] == 0
  {
    hide ToLE, StandsAt;
    var r, b := h.Raw(), h.ToBytes();
    Slices(ToLE(r.magic, 2), [r.version, r.code], ToLE(r.flags, 2), ToLE(r.low, 2),
           ToLE(r.fileId, 8), ToLE(r.offset, 8), ToLE(r.length, 4), ToLE(r.high, 4));
    Pow256Values();
    WindowStandsAt(b, 4, 2, r.flags);
    WindowStandsAt(b, 8, 8, r.fileId);
    WindowStandsAt(b, 16, 8, r.offset);
    WindowStandsAt(b, 24, 4, r.length);
    FixedBytes();
    assert b[0] == b[0..2][0] && b[1] == b[0..2][1] && b[6] == b[6..8][0] && b[7] == b[6..8][1];
    assert forall k :: 0 <= k < 4 ==> b[28 + k] == b[28..32][k];
  }

  lemma FixedBytes()
    ensures ToLE(MAGIC, 2) == [0x10, 0xAE] && ToLE(0, 2) == [0, 0] && ToLE(0, 4) == [0, 0, 0, 0]
  {
    LowByte(0x10);
    LowByte(0xAE);
    assert ToLE(0xAE, 1) == [0xAE] && ToLE(0, 1) == [0] && ToLE(0, 2) == [0, 0] && ToLE(0, 3) == [0, 0, 0];
  }

  /** What a peer accepts, in numbers. */
  lemma AcceptableMeans(h: FrameHeader)
    ensures h.Acceptable() <==>
            h.flags <= 1 && h.length <= 8_388_608 && (h.msgType == Keepalive ==> h.length == 0)
  {
  }

  // ----- encode and decode ----------------------------------------------------------

  /** `copy_from_slice` into a window of a fixed buffer whose front is already written. */
  method CopyInto(out: array<byte>, at: nat, src: seq<byte>)
    requires at + |src| <= out.Length
    modifies out
    ensures out[..at + |src|] == old(out[..at]) + src
  {
    for i := 0 to |src|
      invariant out[..at + i] == old(out[..at]) + src[..i]
    {
      out[at + i] := src[i];
      assert out[..at + i + 1] == out[..at + i] + [src[i]];
    }
  }

  /** `encode`, field by field into the caller's buffer: whatever it held is overwritten. */
  method Encode(h: FrameHeader, out: array<byte>)
    requires out.Length == HEADER_LEN
    modifies out
    ensures out[..] == h.ToBytes()
  {
    EncodeFields(out, ToLE(MAGIC, 2), [PROTOCOL_VERSION, Code(h.msgType)], ToLE(h.flags, 2), ToLE(0, 2),
                 ToLE(h.fileId, 8), ToLE(h.offset, 8), ToLE(h.length, 4), ToLE(0, 4));
  }

  method EncodeFields(out: array<byte>, a: seq<byte>, b: seq<byte>, c: seq<byte>, d: seq<byte>,
                      e: seq<byte>, f: seq<byte>, g: seq<byte>, h: seq<byte>)
    requires out.Length == HEADER_LEN
    requires |a| == |b| == |c| == |d| == 2 && |e| == |f| == 8 && |g| == |h| == 4
    modifies out
    ensures out[..] == a + b + c + d + e + f + g + h
  {
    CopyInto(out, 0, a);
    CopyInto(out, 2, b);
    CopyInto(out, 4, c);
    CopyInto(out, 6, d);
    CopyInto(out, 8, e);
    CopyInto(out, 16, f);
    CopyInto(out, 24, g);
    CopyInto(out, 28, h);
    assert out[..] == out[..32];
  }

  /** The checks of `decode`, in the order the wire crate makes them. */
  function Check(r: RawHeader): Result<FrameHeader, WireError> {
    if r.magic != MAGIC then Err(BadMagic(r.magic))
    else if r.version != PROTOCOL_VERSION then Err(UnsupportedVersion(r.version))
    else match FromCode(r.code)
      case Err(e) => Err(e)
      case Ok(msgType) =>
        // `raw & !KNOWN != 0`, with KNOWN the lowest bit
        if r.flags > KNOWN_FLAGS then Err(UnknownFlags(r.flags))
        else if r.low != 0 || r.high != 0 then Err(ReservedNotZero)
        else if r.length > MAX_FRAME_PAYLOAD then Err(FrameTooLarge(r.length))
        else if msgType == Keepalive && r.length != 0 then Err(KeepaliveWithPayload(r.length))
        else Ok(FrameHeader(msgType, r.flags, r.fileId, r.offset, r.length))
  }

  lemma CheckAcceptsExactly(r: RawHeader)
    ensures Check(r).Ok? ==> Check(r).value.Acceptable() && Check(r).value.Raw() == r
  {
  }

  lemma CheckRaw(h: FrameHeader)
    ensures Check(h.Raw()) == Ok(h) <==> h.Acceptable()
    ensures Check(h.Raw()).Ok? <==> h.Acceptable()
  {
  }

  /** `decode`. */
  function Decode(buf: seq<byte>): (r: Result<FrameHeader, WireError>) {
    if |buf| < HEADER_LEN then Err(ShortHeader(|buf|)) else Check(Parse(buf))
  }

  /** Decoding an encoded header gives it back exactly when it is acceptable; otherwise it fails. */
  lemma DecodeEncode(h: FrameHeader)
    ensures Decode(h.ToBytes()) == Ok(h) <==> h.Acceptable()
    ensures Decode(h.ToBytes()).Ok? <==> h.Acceptable()
  {
    ParseSerialize(h.Raw());
    CheckRaw(h);
    assert Decode(h.ToBytes()) == Check(h.Raw());
  }

  /** Every accepted 32-byte string is the encoding of the acceptable header it decodes to. */
  lemma EncodeDecode(buf: seq<byte>)
    requires |buf| == HEADER_LEN && Decode(buf).Ok?
    ensures Decode(buf).value.Acceptable()
    ensures Decode(buf).value.ToBytes() == buf
  {
    CheckAcceptsExactly(Parse(buf));
    SerializeParse(buf);
  }

  /** Which byte strings are refused, and why, in the order the checks are made: too short, wrong magic,
      wrong version, unknown type, unknown flags, reserved bytes set, too long, a keepalive with a payload. */
  lemma DecodeRefuses(b: seq<byte>, magic: u16, flags: u16, length: u32)
    requires |b| >= HEADER_LEN && StandsAt(b, 0, 2, magic) && StandsAt(b, 4, 2, flags) && StandsAt(b, 24, 4, length)
    ensures
      var r := Decode(b);
      if magic != 0xAE10 then r == Err(BadMagic(magic))
      else if b[2] != 1 then r == Err(UnsupportedVersion(b[2]))
      else if b[3] > 3 then r == Err(UnknownMessageType(b[3]))
      else if flags > 1 then r == Err(UnknownFlags(flags))
      else if ReservedSet(b) then r == Err(ReservedNotZero)
      else if length > 8_388_608 then r == Err(FrameTooLarge(length))
      else if b[3] == 3 && length != 0 then r == Err(KeepaliveWithPayload(length))
      else r.Ok?
    ensures forall s: seq<byte> :: |s| < HEADER_LEN ==> Decode(s) == Err(ShortHeader(|s|))
  {
    hide Parse, ToLE, StandsAt;
    ParseReads(b, magic, flags, length);
  }

  predicate ReservedSet(b: seq<byte>)
    requires |b| >= HEADER_LEN
  {
    b[6] != 0 || b[7] != 0 || b[28] != 0 || b[29] != 0 || b[30] != 0 || b[31] != 0
  }

  lemma ParseReads(b: seq<byte>, magic: u16, flags: u16, length: u32)
    requires |b| >= HEADER_LEN && StandsAt(b, 0, 2, magic) && StandsAt(b, 4, 2, flags) && StandsAt(b, 24, 4, length)
    ensures
      var r := Parse(b);
      && r.magic == magic && r.version == b[2] && r.code == b[3] && r.flags == flags && r.length == length
      && (r.low != 0 || r.high != 0 <==> ReservedSet(b))
  {
    hide ToLE, FromLE, StandsAt;
    ReadsAs(b, 0, 2, magic);
    ReadsAs(b, 4, 2, flags);
    ReadsAs(b, 24, 4, length);
    ZeroBytes(b[6..8]);
    ZeroBytes(b[28..32]);
  }

  lemma ReadsAs(b: seq<byte>, o: nat, n: nat, x: nat)
    requires o + n <= |b| && n in {2, 4} && StandsAt(b, o, n, x)
    ensures FromLE(b[o..o + n]) == x
  {
    hide FromLE;
    FromLEWeighs(b[o..o + n]);
  }

  lemma ZeroBytes(s: seq<byte>)
    requires |s| in {2, 4}
    ensures |s| == 2 ==> (FromLE(s) != 0 <==> s[0] != 0 || s[1] != 0)
    ensures |s| == 4 ==> (FromLE(s) != 0 <==> s[0] != 0 || s[1] != 0 || s[2] != 0 || s[3] != 0)
  {
    hide FromLE;
    FromLEWeighs(s);
  }
}
