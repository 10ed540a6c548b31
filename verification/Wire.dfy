// The sender's side of the wire: one chunk cut into frames (aetherlink-core
// send.rs), and how a byte stream reads back as frames.

module Wire {
  import opened Base
  import opened Frames

  /** One frame: a header and the payload that follows it. */
  datatype Frame = Frame(header: FrameHeader, payload: seq<byte>) {

    predicate WellFormed() {
      header.Acceptable() && |payload| == PayloadLen(header)
    }

    function Bytes(): seq<byte> { header.ToBytes() + payload }
  }

  /** How many bytes the reader takes after a header: only bulk data carries any. */
  function PayloadLen(h: FrameHeader): nat {
    if h.msgType == FileData then h.length else 0
  }

  function StreamBytes(frames: seq<Frame>): seq<byte> {
    if frames == [] then [] else frames[0].Bytes() + StreamBytes(frames[1..])
  }

  lemma {:induction false} StreamBytesConcat(a: seq<Frame>, b: seq<Frame>)
    ensures StreamBytes(a + b) == StreamBytes(a) + StreamBytes(b)
  {
    hide FrameHeader.ToBytes, Frame.Bytes;
    if a == [] {
      assert a + b == b && [] + StreamBytes(b) == StreamBytes(b);
    } else {
      StreamBytesConcat(a[1..], b);
      assert (a + b)[1..] == a[1..] + b && (a + b)[0] == a[0];
      Associate(a[0].Bytes(), StreamBytes(a[1..]), StreamBytes(b));
    }
  }

  lemma Associate(x: seq<byte>, y: seq<byte>, z: seq<byte>)
    ensures x + y + z == x + (y + z)
  {
  }

  lemma StreamBytesPush(frames: seq<Frame>, f: Frame)
    ensures StreamBytes(frames + [f]) == StreamBytes(frames) + f.Bytes()
  {
    hide FrameHeader.ToBytes;
    StreamBytesConcat(frames, [f]);
    assert f.Bytes() + [] == f.Bytes();
  }

  // ----- cutting a chunk into frames ----------------------------------------------

  function DataFrame(fileId: u64, offset: u64, part: seq<byte>): Frame
    requires |part| <= MAX_FRAME_PAYLOAD
  {
    Frame(NewHeader(FileData, fileId, offset, |part|), part)
  }

  /** The frames of one chunk: runs of at most `frameSize` bytes at increasing offsets. */
  function ChunkFrames(fileId: u64, offset: nat, payload: seq<byte>, frameSize: nat): (frames: seq<Frame>)
    requires Framable(offset, payload, frameSize)
    decreases |payload|
  {
    if payload == [] then []
    else
      var n := Min(frameSize, |payload|);
      [DataFrame(fileId, offset, payload[..n])] + ChunkFrames(fileId, offset + n, payload[n..], frameSize)
  }

  predicate Framable(offset: nat, payload: seq<byte>, frameSize: nat) {
    0 < frameSize && Min(frameSize, |payload|) <= MAX_FRAME_PAYLOAD && offset + |payload| <= U64_MAX
  }

  /** A data frame for this file that carries these bytes for this offset, and says so. */
  ghost predicate Carries(f: Frame, fileId: u64, offset: nat, part: seq<byte>) {
    && f.payload == part && f.header.length == |part| && f.header.msgType == FileData && f.header.flags == 0
    && f.header.fileId == fileId && f.header.offset == offset
  }

  /** Frame `i` of a chunk, if there is one, carries its bytes from `at == i * frameSize` on, as many as fit;
      and there is one exactly while bytes remain. */
  lemma {:induction false} ChunkFramesCut(fileId: u64, offset: nat, payload: seq<byte>, frameSize: nat, i: nat, at: nat)
    requires Framable(offset, payload, frameSize) && at == i * frameSize
    ensures
      var frames := ChunkFrames(fileId, offset, payload, frameSize);
      && (i < |frames| <==> at < |payload|)
      && (i < |frames| ==> Carries(frames[i], fileId, offset + at, payload[at..Min(at + frameSize, |payload|)]))
    decreases i, 1
  {
    hide Carries, DataFrame, ChunkFrames;
    if payload == [] {
      NoFrames(fileId, offset, frameSize);
    } else {
      var n := Min(frameSize, |payload|);
      FirstCut(fileId, offset, payload, frameSize);
      if i > 0 {
        OneLess(i, frameSize);
        CutBehind(fileId, offset, payload, frameSize, n, i, at);
      }
    }
  }

  lemma FirstCut(fileId: u64, offset: nat, payload: seq<byte>, frameSize: nat)
    requires Framable(offset, payload, frameSize) && payload != []
    ensures
      var n, frames := Min(frameSize, |payload|), ChunkFrames(fileId, offset, payload, frameSize);
      && |frames| > 0 && Carries(frames[0], fileId, offset, payload[0..n])
      && Framable(offset + n, payload[n..], frameSize)
      && frames[1..] == ChunkFrames(fileId, offset + n, payload[n..], frameSize)
  {
    assert payload[..Min(frameSize, |payload|)] == payload[0..Min(frameSize, |payload|)];
  }

  /** Frame `i` of a chunk is frame `i - 1` of what lies behind its first frame. */
  lemma {:induction false} CutBehind(fileId: u64, offset: nat, payload: seq<byte>, frameSize: nat, n: nat, i: nat,
                                     at: nat)
    requires Framable(offset, payload, frameSize) && payload != [] && n == Min(frameSize, |payload|)
    requires i > 0 && at == i * frameSize && at >= frameSize
    ensures
      var frames := ChunkFrames(fileId, offset, payload, frameSize);
      && (i < |frames| <==> at < |payload|)
      && (i < |frames| ==> Carries(frames[i], fileId, offset + at, payload[at..Min(at + frameSize, |payload|)]))
    decreases i, 0
  {
    hide Carries, DataFrame, ChunkFrames;
    FirstCut(fileId, offset, payload, frameSize);
    var rest := payload[n..];
    if n == frameSize {
      var before := at - frameSize;
      OneLess(i, frameSize);
      ChunkFramesCut(fileId, offset + n, rest, frameSize, i - 1, before);
      if before < |rest| { assert rest[before..Min(before + n, |rest|)] == payload[at..Min(at + n, |payload|)]; }
    } else {
      NoFrames(fileId, offset + n, frameSize);
      assert rest == [];
    }
  }

  lemma OneLess(i: nat, d: nat)
    requires i > 0
    ensures i * d == (i - 1) * d + d && (i - 1) * d >= 0
  {
  }

  lemma NoFrames(fileId: u64, offset: nat, frameSize: nat)
    requires Framable(offset, [], frameSize)
    ensures ChunkFrames(fileId, offset, [], frameSize) == []
  {
  }

  /** `sent` frames are out after `n` turns of the framing loop, `rest` of the chunk is not. */
  ghost predicate Sending(fileId: u64, offset: nat, payload: seq<byte>, frameSize: nat,
                          n: nat, rest: seq<byte>, sent: seq<Frame>)
    requires Framable(offset, payload, frameSize)
  {
    && |rest| <= |payload|
    && (rest != [] ==> n * frameSize == |payload| - |rest|)
    && sent + ChunkFrames(fileId, offset + |payload| - |rest|, rest, frameSize)
       == ChunkFrames(fileId, offset, payload, frameSize)
  }

  lemma SendingStep(fileId: u64, offset: nat, payload: seq<byte>, frameSize: nat,
                    n: nat, rest: seq<byte>, sent: seq<Frame>, k: nat)
    requires Framable(offset, payload, frameSize) && rest != [] && k == Min(frameSize, |rest|)
    requires Sending(fileId, offset, payload, frameSize, n, rest, sent)
    ensures offset + n * frameSize <= U64_MAX
    ensures Sending(fileId, offset, payload, frameSize, n + 1, rest[k..],
                    sent + [DataFrame(fileId, offset + n * frameSize, rest[..k])])
  {
    hide DataFrame;
    assert (n + 1) * frameSize == n * frameSize + frameSize;
  }

  /** The sender's framing loop over `payload.chunks(frame_size).enumerate()`: `rest` is what
      the iterator has not yielded, and frame `n` claims offset `offset + n * frame_size`. */
  method SendChunk(stream: seq<byte>, fileId: u64, offset: nat, payload: seq<byte>, frameSize: nat)
    returns (stream': seq<byte>)
    requires Framable(offset, payload, frameSize)
    ensures stream' == stream + StreamBytes(ChunkFrames(fileId, offset, payload, frameSize))
  {
    hide StreamBytes, DataFrame, Sending, ChunkFrames;
    stream' := stream;
    var header := new byte[HEADER_LEN];
    var n: nat, rest := 0, payload;
    ghost var sent: seq<Frame> := [];
    NoneSent(stream, fileId, offset, payload, frameSize);
    while rest != []
      invariant Sending(fileId, offset, payload, frameSize, n, rest, sent)
      invariant stream' == stream + StreamBytes(sent)
      decreases |rest|
    {
      var k := Min(frameSize, |rest|);
      SendingStep(fileId, offset, payload, frameSize, n, rest, sent, k);
      stream', sent := SendFrame(stream, stream', sent, fileId, offset + n * frameSize, rest[..k], header);
      n, rest := n + 1, rest[k..];
    }
    AllSent(fileId, offset, payload, frameSize, n, sent);
  }

  lemma NoneSent(stream: seq<byte>, fileId: u64, offset: nat, payload: seq<byte>, frameSize: nat)
    requires Framable(offset, payload, frameSize)
    ensures Sending(fileId, offset, payload, frameSize, 0, payload, [])
    ensures stream == stream + StreamBytes([])
  {
    assert [] + ChunkFrames(fileId, offset, payload, frameSize) == ChunkFrames(fileId, offset, payload, frameSize);
  }

  lemma AllSent(fileId: u64, offset: nat, payload: seq<byte>, frameSize: nat, n: nat, sent: seq<Frame>)
    requires Framable(offset, payload, frameSize)
    requires Sending(fileId, offset, payload, frameSize, n, [], sent)
    ensures sent == ChunkFrames(fileId, offset, payload, frameSize)
  {
    assert sent + [] == sent;
  }

  method SendFrame(ghost base: seq<byte>, stream: seq<byte>, ghost sent: seq<Frame>,
                   fileId: u64, offset: u64, part: seq<byte>, header: array<byte>)
    returns (stream': seq<byte>, ghost sent': seq<Frame>)
    requires |part| <= MAX_FRAME_PAYLOAD && header.Length == HEADER_LEN && stream == base + StreamBytes(sent)
    modifies header
    ensures sent' == sent + [DataFrame(fileId, offset, part)]
    ensures stream' == base + StreamBytes(sent')
  {
    hide FrameHeader.ToBytes;
    Encode(NewHeader(FileData, fileId, offset, |part|), header);
    stream' := stream + header[..];
    stream' := stream' + part;
    ghost var f := DataFrame(fileId, offset, part);
    sent' := sent + [f];
    StreamBytesPush(sent, f);
    Associate(stream, header[..], part);
    Associate(base, StreamBytes(sent), f.Bytes());
  }

  // ----- reading frames back ---------------------------------------------------------

  /** What a reader meets: a whole frame, a header whose payload never arrives, or a bad header. */
  datatype Token = Whole(frame: Frame) | Cut(header: FrameHeader) | Bad(error: WireError)

  /** The stream as the reader takes it apart: 32 bytes, then the payload they announce. Fewer
      than 32 trailing bytes yield nothing. */
  function Tokens(bytes: seq<byte>): seq<Token>
    decreases |bytes|
  {
    if |bytes| < HEADER_LEN then []
    else match Decode(bytes[..HEADER_LEN])
      case Err(e) => [Bad(e)]
      case Ok(h) =>
        var rest := bytes[HEADER_LEN..];
        var n := PayloadLen(h);
        if |rest| < n then [Cut(h)]
        else [Whole(Frame(h, rest[..n]))] + Tokens(rest[n..])
  }

  function Wholes(frames: seq<Frame>): (tokens: seq<Token>)
    ensures |tokens| == |frames|
  {
    if frames == [] then [] else [Whole(frames[0])] + Wholes(frames[1..])
  }

  lemma OneFrameReadsBack(f: Frame, tail: seq<byte>)
    requires f.WellFormed()
    ensures Tokens(f.Bytes() + tail) == [Whole(f)] + Tokens(tail)
  {
    hide FrameHeader.ToBytes, Decode;
    var bytes := f.Bytes() + tail;
    DecodeEncode(f.header);
    FrontOf(f.header.ToBytes(), f.payload, tail);
    assert Decode(bytes[..HEADER_LEN]) == Ok(f.header);
  }

  lemma FrontOf(h: seq<byte>, p: seq<byte>, tail: seq<byte>)
    ensures (h + p + tail)[..|h|] == h
    ensures (h + p + tail)[|h|..][..|p|] == p
    ensures (h + p + tail)[|h|..][|p|..] == tail
  {
  }

  /** Well-formed frames survive the trip through bytes, whatever follows them. */
  lemma {:induction false} FramesReadBack(frames: seq<Frame>, tail: seq<byte>)
    requires forall i :: 0 <= i < |frames| ==> frames[i].WellFormed()
    ensures Tokens(StreamBytes(frames) + tail) == Wholes(frames) + Tokens(tail)
  {
    hide FrameHeader.ToBytes, Decode;
    if frames == [] {
      assert StreamBytes(frames) + tail == tail;
    } else {
      FramesReadBack(frames[1..], tail);
      OneFrameReadsBack(frames[0], StreamBytes(frames[1..]) + tail);
      Associate(frames[0].Bytes(), StreamBytes(frames[1..]), tail);
    }
  }

  /** Every token a reader accepts is a well-formed frame. */
  lemma {:induction false} TokensWellFormed(bytes: seq<byte>, i: nat)
    requires i < |Tokens(bytes)| && Tokens(bytes)[i].Whole?
    ensures Tokens(bytes)[i].frame.WellFormed()
    decreases |bytes|
  {
    hide Decode, FrameHeader.ToBytes;
    EncodeDecode(bytes[..HEADER_LEN]);
    if i > 0 {
      var h := Decode(bytes[..HEADER_LEN]).value;
      TokensWellFormed(bytes[HEADER_LEN..][PayloadLen(h)..], i - 1);
    }
  }
}
