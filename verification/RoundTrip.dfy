// Framing round trip: what the sender puts on one stream (send.rs) is exactly
// what the receiver's automaton takes off it (recv.rs).

module RoundTrip {
  import opened Base
  import opened Layout
  import opened Frames
  import opened Wire
  import opened Drain

  /** The sender may frame this chunk: `chunks(0)` would panic, and the peer refuses more than
      `MAX_FRAME_PAYLOAD` in one frame. */
  ghost predicate Sendable(H: Hasher, files: Targets, w: Write, frameSize: nat) {
    Committed(H, files, w) && Framable(files[w.fileId].layout.Start(w.index), w.bytes, frameSize)
  }

  ghost predicate AllSendable(H: Hasher, files: Targets, chunks: seq<Write>, frameSize: nat) {
    forall i :: 0 <= i < |chunks| ==> Sendable(H, files, chunks[i], frameSize)
  }

  /** The frames of one chunk, as the sender's worker emits them. */
  ghost function FramesOf(H: Hasher, files: Targets, w: Write, frameSize: nat): seq<Frame>
    requires Sendable(H, files, w, frameSize)
  {
    ChunkFrames(w.fileId, files[w.fileId].layout.Start(w.index), w.bytes, frameSize)
  }

  /** Everything one worker sends: its chunks one after the other. */
  ghost function AllFrames(H: Hasher, files: Targets, chunks: seq<Write>, frameSize: nat): seq<Frame>
    requires AllSendable(H, files, chunks, frameSize)
  {
    if chunks == [] then []
    else
      assert Sendable(H, files, chunks[0], frameSize);
      assert AllSendable(H, files, chunks[1..], frameSize) by {
        forall i | 0 <= i < |chunks[1..]|
          ensures Sendable(H, files, chunks[1..][i], frameSize)
        {
          assert chunks[1..][i] == chunks[i + 1];
        }
      }
      FramesOf(H, files, chunks[0], frameSize) + AllFrames(H, files, chunks[1..], frameSize)
  }

  // ----- the frames are ones the peer can read -----------------------------------------

  lemma {:induction false} ChunkFramesWellFormed(fileId: u64, offset: nat, payload: seq<byte>, frameSize: nat, i: nat)
    requires Framable(offset, payload, frameSize) && i < |ChunkFrames(fileId, offset, payload, frameSize)|
    ensures ChunkFrames(fileId, offset, payload, frameSize)[i].WellFormed()
    decreases |payload|
  {
    var n := Min(frameSize, |payload|);
    if i > 0 { ChunkFramesWellFormed(fileId, offset + n, payload[n..], frameSize, i - 1); }
  }

  lemma {:induction false} AllFramesWellFormed(H: Hasher, files: Targets, chunks: seq<Write>, frameSize: nat)
    requires AllSendable(H, files, chunks, frameSize)
    ensures forall f :: f in AllFrames(H, files, chunks, frameSize) ==> f.WellFormed()
  {
    hide Sendable, Frame.WellFormed, ChunkFrames, ChunkLayout.Start;
    if chunks != [] {
      SendableTail(H, files, chunks, frameSize);
      AllFramesWellFormed(H, files, chunks[1..], frameSize);
      FramesOfWellFormed(H, files, chunks[0], frameSize);
    }
  }

  lemma FramesOfWellFormed(H: Hasher, files: Targets, w: Write, frameSize: nat)
    requires Sendable(H, files, w, frameSize)
    ensures forall f :: f in FramesOf(H, files, w, frameSize) ==> f.WellFormed()
  {
    var o := files[w.fileId].layout.Start(w.index);
    forall i | 0 <= i < |FramesOf(H, files, w, frameSize)|
      ensures FramesOf(H, files, w, frameSize)[i].WellFormed()
    {
      ChunkFramesWellFormed(w.fileId, o, w.bytes, frameSize, i);
    }
  }

  lemma SendableTail(H: Hasher, files: Targets, chunks: seq<Write>, frameSize: nat)
    requires AllSendable(H, files, chunks, frameSize) && chunks != []
    ensures Sendable(H, files, chunks[0], frameSize)
    ensures AllSendable(H, files, chunks[1..], frameSize)
  {
    hide Sendable;
    forall i | 0 <= i < |chunks[1..]|
      ensures Sendable(H, files, chunks[1..][i], frameSize)
    {
      assert chunks[1..][i] == chunks[i + 1];
    }
  }

  // ----- one chunk lands ------------------------------------------------------------------

  /** The receiver part way through chunk `w`, holding `buf`. */
  ghost predicate Within(files: Targets, w: Write, cur: Current, buf: seq<byte>)
    requires w.fileId in files && files[w.fileId].Valid() && w.index < files[w.fileId].layout.count
  {
    var l := files[w.fileId].layout;
    || (cur == Between && buf == [])
    || (l.Start(w.index) <= U64_MAX && cur == Mid(w.fileId, w.index, l.Start(w.index), l.Len(w.index), buf))
  }

  /** One frame of the chunk is absorbed: either more of it is buffered, or the chunk lands. */
  lemma FrameAbsorbed(H: Hasher, files: Targets, w: Write, cur: Current, buf: seq<byte>, rest: seq<byte>,
                      part: seq<byte>)
    requires AllValid(files) && CurrentOk(files, cur) && Committed(H, files, w) && Within(files, w, cur, buf)
    requires w.bytes == buf + rest && 0 < |part| <= |rest| && part == rest[..|part|] && |part| <= MAX_FRAME_PAYLOAD
    ensures
      var l := files[w.fileId].layout;
      l.Start(w.index) + |buf| <= U64_MAX &&
      var step := OnData(H, files, cur, DataFrame(w.fileId, l.Start(w.index) + |buf|, part));
      if |part| == |rest| then step == Landed(w)
      else step.More? && CurrentOk(files, step.cur) && Within(files, w, step.cur, buf + part)
  {
    var l := files[w.fileId].layout;
    StartInside(l, w.index);
    if cur.Between? {
      IndexOfInvertsRange(l, l.Start(w.index), w.index);
    }
    if |part| == |rest| {
      assert buf + part == w.bytes;
    }
  }

  /** Reading one more data frame. */
  lemma RunData(H: Hasher, files: Targets, f: Frame, tail: seq<Token>, broken: bool, cur: Current)
    requires AllValid(files) && CurrentOk(files, cur) && Readable(tail)
    requires f.WellFormed() && f.header.msgType == FileData
    ensures Readable([Whole(f)] + tail) && CurrentOk(files, Between)
    ensures
      var run, step := Run(H, files, [Whole(f)] + tail, broken, cur), OnData(H, files, cur, f);
      && (step.Landed? ==> run == Prepend(step.write, Run(H, files, tail, broken, Between)))
      && (step.More? ==> CurrentOk(files, step.cur) && run == Run(H, files, tail, broken, step.cur))
  {
    hide OnData, CurrentOk;
    BetweenOk(files);
    OnDataOk(H, files, cur, f);
    var all := [Whole(f)] + tail;
    assert all[1..] == tail && all[0] == Whole(f);
  }

  lemma FirstFrame(fileId: u64, at: nat, rest: seq<byte>, frameSize: nat, tokens: seq<Token>)
    requires Framable(at, rest, frameSize) && rest != []
    ensures
      var n := Min(frameSize, |rest|);
      var f := DataFrame(fileId, at, rest[..n]);
      && f.WellFormed() && f.header.msgType == FileData
      && Wholes(ChunkFrames(fileId, at, rest, frameSize)) + tokens
         == [Whole(f)] + (Wholes(ChunkFrames(fileId, at + n, rest[n..], frameSize)) + tokens)
  {
    var n := Min(frameSize, |rest|);
    var f := DataFrame(fileId, at, rest[..n]);
    var frames := ChunkFrames(fileId, at, rest, frameSize);
    assert frames[0] == f && frames[1..] == ChunkFrames(fileId, at + n, rest[n..], frameSize);
  }

  /** From any point of a chunk, its remaining frames make it land and leave the receiver between chunks. */
  lemma {:induction false} ChunkLands(H: Hasher, files: Targets, w: Write, frameSize: nat, cur: Current,
                                      buf: seq<byte>, rest: seq<byte>, tokens: seq<Token>, broken: bool)
    requires AllValid(files) && CurrentOk(files, cur) && Committed(H, files, w) && Within(files, w, cur, buf)
    requires w.fileId in files && w.bytes == buf + rest && rest != [] && Readable(tokens)
    requires Framable(files[w.fileId].layout.Start(w.index) + |buf|, rest, frameSize)
    ensures
      var frames := ChunkFrames(w.fileId, files[w.fileId].layout.Start(w.index) + |buf|, rest, frameSize);
      Readable(Wholes(frames) + tokens) && CurrentOk(files, Between) &&
      Run(H, files, Wholes(frames) + tokens, broken, cur) == Prepend(w, Run(H, files, tokens, broken, Between))
    decreases |rest|
  {
    hide OnData, CurrentOk, Committed, Within, ChunkLayout.Start, Run, DataFrame, Readable, Frame.WellFormed;
    var at := files[w.fileId].layout.Start(w.index) + |buf|;
    var n := Min(frameSize, |rest|);
    var part, after := rest[..n], rest[n..];
    var f := DataFrame(w.fileId, at, part);
    FrameAbsorbed(H, files, w, cur, buf, rest, part);
    FirstFrame(w.fileId, at, rest, frameSize, tokens);
    if n == |rest| {
      assert Wholes(ChunkFrames(w.fileId, at + n, after, frameSize)) + tokens == tokens;
      RunData(H, files, f, tokens, broken, cur);
    } else {
      assert buf + part + after == w.bytes;
      var next := OnData(H, files, cur, f).cur;
      ChunkLands(H, files, w, frameSize, next, buf + part, after, tokens, broken);
      RunData(H, files, f, Wholes(ChunkFrames(w.fileId, at + n, after, frameSize)) + tokens, broken, cur);
    }
  }

  // ----- the whole stream -------------------------------------------------------------------

  lemma {:induction false} WholesConcat(a: seq<Frame>, b: seq<Frame>)
    ensures Wholes(a + b) == Wholes(a) + Wholes(b)
  {
    hide Frame.WellFormed;
    if a == [] {
      assert a + b == b && [] + Wholes(b) == Wholes(b);
    } else {
      WholesConcat(a[1..], b);
      assert (a + b)[1..] == a[1..] + b && (a + b)[0] == a[0];
      PrependConcat(Whole(a[0]), Wholes(a[1..]), Wholes(b));
    }
  }

  lemma PrependConcat(t: Token, x: seq<Token>, y: seq<Token>)
    ensures [t] + (x + y) == ([t] + x) + y
  {
  }

  lemma {:induction false} FramesLand(H: Hasher, files: Targets, chunks: seq<Write>, frameSize: nat)
    requires AllValid(files) && AllSendable(H, files, chunks, frameSize)
    ensures Readable(Wholes(AllFrames(H, files, chunks, frameSize))) && CurrentOk(files, Between)
    ensures Run(H, files, Wholes(AllFrames(H, files, chunks, frameSize)), false, Between) == Drained(chunks, Ok(()))
  {
    hide CurrentOk, Committed, ChunkLayout.Start, ChunkFrames;
    BetweenOk(files);
    if chunks != [] {
      var w, later := chunks[0], chunks[1..];
      SendableTail(H, files, chunks, frameSize);
      FramesLand(H, files, later, frameSize);
      var tail := AllFrames(H, files, later, frameSize);
      WholesConcat(FramesOf(H, files, w, frameSize), tail);
      FirstChunk(H, files, w, frameSize, Wholes(tail));
      assert [w] + later == chunks;
    }
  }

  lemma FirstChunk(H: Hasher, files: Targets, w: Write, frameSize: nat, tokens: seq<Token>)
    requires AllValid(files) && Sendable(H, files, w, frameSize) && Readable(tokens)
    ensures
      var all := Wholes(FramesOf(H, files, w, frameSize)) + tokens;
      Readable(all) && CurrentOk(files, Between) &&
      Run(H, files, all, false, Between) == Prepend(w, Run(H, files, tokens, false, Between))
  {
    hide Run, Readable, ChunkFrames;
    assert [] + w.bytes == w.bytes;
    ChunkLands(H, files, w, frameSize, Between, [], w.bytes, tokens, false);
  }

  /** The round trip over bytes: for every sequence of committed chunks and every admissible frame
      size, the receiver accepts the sender's stream and delivers exactly those chunks, in order. */
  lemma StreamRoundTrip(H: Hasher, files: Targets, chunks: seq<Write>, frameSize: nat)
    requires AllValid(files) && AllSendable(H, files, chunks, frameSize)
    ensures
      var bytes := StreamBytes(AllFrames(H, files, chunks, frameSize));
      Readable(Tokens(bytes)) && CurrentOk(files, Between) &&
      Run(H, files, Tokens(bytes), false, Between) == Drained(chunks, Ok(()))
  {
    hide Run, Readable, CurrentOk, AllFrames, Frame.WellFormed, Decode, FrameHeader.ToBytes;
    var frames := AllFrames(H, files, chunks, frameSize);
    AllFramesWellFormed(H, files, chunks, frameSize);
    FramesReadBack(frames, []);
    assert StreamBytes(frames) + [] == StreamBytes(frames) && Wholes(frames) + [] == Wholes(frames);
    FramesLand(H, files, chunks, frameSize);
  }
}
