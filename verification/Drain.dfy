// The receiver's side of one data stream: `drain_stream` in aetherlink-core
// recv.rs, with `verify_and_write` (io.rs) as the only way a byte reaches a file.

module Drain {
  import opened Base
  import opened Layout
  import opened Frames
  import opened Wire

  /** What the manifest committed to for one file. */
  datatype Target = Target(layout: ChunkLayout, hashes: seq<Hash>) {
    predicate Valid() {
      layout.Valid() && |hashes| == layout.count
    }
  }

  type Targets = map<u64, Target>

  ghost predicate AllValid(files: Targets) {
    forall id :: id in files ==> files[id].Valid()
  }

  /** Between chunks, or part way through one with `buf` received. */
  datatype Current =
    | Between
    | Mid(fileId: u64, index: u64, start: u64, len: u32, buf: seq<byte>)

  /** A verified chunk on its way to its file. */
  datatype Write = Write(fileId: u64, index: u64, bytes: seq<byte>)

  datatype DrainError =
    | Io
    | Codec(error: WireError)
    | UnexpectedType(msgType: MsgType)
    | UnknownFile(fileId: u64)
    | NotAtChunkStart(got: u64, expected: u64)
    | Interleaved
    | OutOfOrder(got: u64, next: nat)
    | Overrun
    | ChunkVerificationFailed(offset: u64)
    | Incomplete

  // ----- one frame ---------------------------------------------------------------

  /** The checks made on a data header before its payload is read. */
  function Admit(files: Targets, cur: Current, h: FrameHeader): (r: Result<Current, DrainError>)
    requires AllValid(files)
    ensures r.Ok? ==> r.value.Mid?
  {
    if h.fileId !in files then Err(UnknownFile(h.fileId))
    else match Opened(files[h.fileId], cur, h)
      case Err(e) => Err(e)
      case Ok(mid) =>
        if h.fileId != mid.fileId then Err(Interleaved)
        else if h.offset != mid.start + |mid.buf| then Err(OutOfOrder(h.offset, mid.start + |mid.buf|))
        else if |mid.buf| + h.length > mid.len then Err(Overrun)
        else Ok(mid)
  }

  /** Starts a chunk if none is open; it must start at its own offset. */
  function Opened(t: Target, cur: Current, h: FrameHeader): (r: Result<Current, DrainError>)
    requires t.Valid()
    ensures r.Ok? ==> r.value.Mid?
  {
    if cur.Mid? then Ok(cur)
    else match t.layout.IndexOf(h.offset)
      case Err(e) => Err(Codec(e))
      case Ok(index) =>
        match t.layout.Range(index)
        case Err(e) => Err(Codec(e))
        case Ok((start, len)) =>
          if h.offset != start then Err(NotAtChunkStart(h.offset, start))
          else Ok(Mid(h.fileId, index, start, len, []))
  }

  /** Which frames are refused between chunks, and why, in the order the checks are made: an unknown file, an
      offset past its end, an offset that is not a chunk's first byte, more bytes than the chunk has. */
  lemma RefusedBetween(files: Targets, h: FrameHeader)
    requires AllValid(files)
    ensures h.fileId !in files ==> Admit(files, Between, h) == Err(UnknownFile(h.fileId))
    ensures h.fileId in files ==>
      var l := files[h.fileId].layout;
      && (h.offset >= l.fileSize ==> Admit(files, Between, h) == Err(Codec(OffsetOutOfRange(h.offset, l.fileSize))))
      && (forall i: nat :: i < l.count && l.Start(i) <= h.offset < l.Start(i) + l.Len(i) ==>
            && (h.offset != l.Start(i) ==> Admit(files, Between, h) == Err(NotAtChunkStart(h.offset, l.Start(i))))
            && (h.offset == l.Start(i) && h.length > l.Len(i) ==> Admit(files, Between, h) == Err(Overrun))
            && (h.offset == l.Start(i) && h.length <= l.Len(i) ==> Admit(files, Between, h).Ok?))
  {
    if h.fileId in files {
      var l := files[h.fileId].layout;
      forall i: nat | i < l.count && l.Start(i) <= h.offset < l.Start(i) + l.Len(i)
        ensures l.IndexOf(h.offset) == Ok(i)
      {
        IndexOfInvertsRange(l, h.offset, i);
      }
    }
  }

  /** And inside a chunk: an unknown file, another file, a gap or an overlap, too many bytes. */
  lemma RefusedInside(files: Targets, cur: Current, h: FrameHeader)
    requires AllValid(files) && CurrentOk(files, cur) && cur.Mid?
    ensures
      var r, next := Admit(files, cur, h), cur.start + |cur.buf|;
      && (h.fileId !in files ==> r == Err(UnknownFile(h.fileId)))
      && (h.fileId in files && h.fileId != cur.fileId ==> r == Err(Interleaved))
      && (h.fileId == cur.fileId && h.offset != next ==> r == Err(OutOfOrder(h.offset, next)))
      && (h.fileId == cur.fileId && h.offset == next && |cur.buf| + h.length > cur.len ==> r == Err(Overrun))
      && (h.fileId == cur.fileId && h.offset == next && |cur.buf| + h.length <= cur.len ==> r == Ok(cur))
  {
  }

  datatype Step = More(cur: Current) | Landed(write: Write) | Rejected(error: DrainError)

  /** Appends a payload; a full chunk is verified before anything is written. */
  function Absorb(H: Hasher, files: Targets, mid: Current, payload: seq<byte>): Step
    requires mid.Mid? && mid.fileId in files && mid.index < |files[mid.fileId].hashes|
  {
    var buf := mid.buf + payload;
    if |buf| != mid.len then More(mid.(buf := buf))
    else if H(buf) != files[mid.fileId].hashes[mid.index] then Rejected(ChunkVerificationFailed(mid.start))
    else Landed(Write(mid.fileId, mid.index, buf))
  }

  /** An open chunk is one of its file's chunks, and not full yet. */
  ghost predicate CurrentOk(files: Targets, cur: Current)
    requires AllValid(files)
  {
    cur.Mid? ==>
      && cur.fileId in files
      && cur.index < files[cur.fileId].layout.count
      && cur.start == files[cur.fileId].layout.Start(cur.index)
      && cur.len == files[cur.fileId].layout.Len(cur.index)
      && |cur.buf| < cur.len
  }

  lemma AdmitOk(files: Targets, cur: Current, h: FrameHeader)
    requires AllValid(files) && CurrentOk(files, cur) && Admit(files, cur, h).Ok?
    ensures
      var mid := Admit(files, cur, h).value;
      CurrentOk(files, mid) && mid.fileId in files && mid.index < |files[mid.fileId].hashes| &&
      |mid.buf| + h.length <= mid.len && mid.fileId == h.fileId &&
      mid.buf == (if cur.Mid? then cur.buf else [])
  {
    if cur.Between? {
      var l := files[h.fileId].layout;
      var i := l.IndexOf(h.offset).value;
      IndexOfInvertsRange(l, h.offset, i);
    }
  }

  // ----- a whole stream ------------------------------------------------------------

  datatype Drained = Drained(writes: seq<Write>, outcome: Result<(), DrainError>)

  function Prepend(w: Write, d: Drained): Drained { d.(writes := [w] + d.writes) }

  function Fail(e: DrainError): Drained { Drained([], Err(e)) }

  /** Every frame carries the payload its header announces, as whatever was read does. */
  predicate Readable(tokens: seq<Token>) {
    forall i :: 0 <= i < |tokens| && tokens[i].Whole? ==> tokens[i].frame.WellFormed()
  }

  /** `drain_stream` over the tokens of a stream that ends in a close, or `broken`. */
  function Run(H: Hasher, files: Targets, tokens: seq<Token>, broken: bool, cur: Current): Drained
    requires AllValid(files) && CurrentOk(files, cur) && Readable(tokens)
    decreases |tokens|
  {
    if tokens == [] then
      if broken then Fail(Io)
      else if cur.Between? then Drained([], Ok(()))
      else Fail(Incomplete)
    else match tokens[0]
      case Bad(e) => Fail(Codec(e))
      case Cut(h) => (match Admit(files, cur, h) case Err(e) => Fail(e) case Ok(_) => Fail(Io))
      case Whole(f) =>
        match f.header.msgType
        case Keepalive => Run(H, files, tokens[1..], broken, cur)
        case FileData =>
          (match OnData(H, files, cur, f)
           case Rejected(e) => Fail(e)
           case More(next) => OnDataOk(H, files, cur, f); Run(H, files, tokens[1..], broken, next)
           case Landed(w) => Prepend(w, Run(H, files, tokens[1..], broken, Between)))
        case other => Fail(UnexpectedType(other))
  }

  /** One data frame: the header checks, then the payload. */
  function OnData(H: Hasher, files: Targets, cur: Current, f: Frame): Step
    requires AllValid(files) && CurrentOk(files, cur)
  {
    match Admit(files, cur, f.header)
    case Err(e) => Rejected(e)
    case Ok(mid) => AdmitOk(files, cur, f.header); Absorb(H, files, mid, f.payload)
  }

  /** A write that reaches disk: one chunk of one file, whole, with the committed hash. */
  ghost predicate Committed(H: Hasher, files: Targets, w: Write) {
    && w.fileId in files && files[w.fileId].Valid()
    && w.index < files[w.fileId].layout.count
    && |w.bytes| == files[w.fileId].layout.Len(w.index)
    && H(w.bytes) == files[w.fileId].hashes[w.index]
  }

  lemma OnDataOk(H: Hasher, files: Targets, cur: Current, f: Frame)
    requires AllValid(files) && CurrentOk(files, cur)
    ensures OnData(H, files, cur, f).More? && |f.payload| <= f.header.length
            ==> CurrentOk(files, OnData(H, files, cur, f).cur)
    ensures OnData(H, files, cur, f).Landed? ==> Committed(H, files, OnData(H, files, cur, f).write)
  {
    if Admit(files, cur, f.header).Ok? { AdmitOk(files, cur, f.header); }
  }

  // ----- safety for every stream ------------------------------------------------------

  /** Whatever arrives, only whole chunks with the committed hash are ever written. */
  lemma {:induction false} WritesAreCommitted(H: Hasher, files: Targets, tokens: seq<Token>, broken: bool, cur: Current)
    requires AllValid(files) && CurrentOk(files, cur) && Readable(tokens)
    ensures forall w :: w in Run(H, files, tokens, broken, cur).writes ==> Committed(H, files, w)
    decreases |tokens|
  {
    hide Committed, CurrentOk, OnData, Admit;
    if tokens != [] && tokens[0].Whole? {
      var f := tokens[0].frame;
      match f.header.msgType
      case Keepalive => WritesAreCommitted(H, files, tokens[1..], broken, cur);
      case FileData =>
        OnDataOk(H, files, cur, f);
        match OnData(H, files, cur, f) {
          case Rejected(e) =>
          case More(next) => WritesAreCommitted(H, files, tokens[1..], broken, next);
          case Landed(w) =>
            BetweenOk(files);
            WritesAreCommitted(H, files, tokens[1..], broken, Between);
        }
      case _ =>
    }
  }

  lemma BetweenOk(files: Targets)
    requires AllValid(files)
    ensures CurrentOk(files, Between)
  {
  }

  /** The payload bytes of a stream, in order. */
  ghost function Payloads(tokens: seq<Token>): seq<byte> {
    if tokens == [] then []
    else (if tokens[0].Whole? then tokens[0].frame.payload else []) + Payloads(tokens[1..])
  }

  ghost function WrittenBytes(writes: seq<Write>): seq<byte> {
    if writes == [] then [] else writes[0].bytes + WrittenBytes(writes[1..])
  }

  ghost function Pending(cur: Current): seq<byte> {
    if cur.Mid? then cur.buf else []
  }

  lemma OnDataKeepsBytes(H: Hasher, files: Targets, cur: Current, f: Frame)
    requires AllValid(files) && CurrentOk(files, cur)
    ensures OnData(H, files, cur, f).More? ==> Pending(OnData(H, files, cur, f).cur) == Pending(cur) + f.payload
    ensures OnData(H, files, cur, f).Landed? ==> OnData(H, files, cur, f).write.bytes == Pending(cur) + f.payload
  {
    if Admit(files, cur, f.header).Ok? { AdmitOk(files, cur, f.header); }
  }

  lemma Regroup(a: seq<byte>, b: seq<byte>, c: seq<byte>)
    ensures a + (b + c) == (a + b) + c
    ensures a + ([] + c) == a + c
    ensures [] + c == c
  {
  }

  /** A worker that returns Ok has written every payload byte it received, in order, and nothing else. */
  lemma {:induction false} NothingLostOrInvented(H: Hasher, files: Targets, tokens: seq<Token>, broken: bool,
                                                 cur: Current)
    requires AllValid(files) && CurrentOk(files, cur) && Readable(tokens)
    requires Run(H, files, tokens, broken, cur).outcome.Ok?
    ensures Pending(cur) + Payloads(tokens) == WrittenBytes(Run(H, files, tokens, broken, cur).writes)
    decreases |tokens|
  {
    hide CurrentOk, OnData, Admit;
    if tokens != [] {
      var f, rest := tokens[0].frame, tokens[1..];
      Regroup(Pending(cur), f.payload, Payloads(rest));
      if f.header.msgType == Keepalive {
        assert f.payload == [];
        NothingLostOrInvented(H, files, rest, broken, cur);
      } else {
        OnDataOk(H, files, cur, f);
        OnDataKeepsBytes(H, files, cur, f);
        match OnData(H, files, cur, f)
        case More(next) => NothingLostOrInvented(H, files, rest, broken, next);
        case Landed(w) =>
          BetweenOk(files);
          NothingLostOrInvented(H, files, rest, broken, Between);
          var d := Run(H, files, rest, broken, Between);
          assert ([w] + d.writes)[1..] == d.writes;
          Regroup([], [], Payloads(rest));
      }
    }
  }

  // ----- where every payload ends up ---------------------------------------------------

  /** The payload of frame `f` stands in write `w`, at the distance of its offset from the chunk's start. */
  ghost predicate Stands(files: Targets, f: Frame, w: Write) {
    && f.header.fileId == w.fileId && w.fileId in files
    && var o := f.header.offset - files[w.fileId].layout.Start(w.index);
       0 <= o && o + |f.payload| <= |w.bytes| && w.bytes[o..o + |f.payload|] == f.payload
  }

  ghost predicate SomeStands(files: Targets, f: Frame, writes: seq<Write>) {
    exists k :: 0 <= k < |writes| && Stands(files, f, writes[k])
  }

  /** The chunk in progress is the front of write `w`. */
  ghost predicate Fronts(cur: Current, w: Write) {
    cur.Mid? ==>
      && w.fileId == cur.fileId && w.index == cur.index
      && |cur.buf| <= |w.bytes| && w.bytes[..|cur.buf|] == cur.buf
  }

  /** One frame: it goes where its header says, right behind what is already there. */
  lemma FrameStands(H: Hasher, files: Targets, cur: Current, f: Frame, w: Write)
    requires AllValid(files) && CurrentOk(files, cur)
    requires OnData(H, files, cur, f).Landed? ==> w == OnData(H, files, cur, f).write
    requires OnData(H, files, cur, f).More? ==> Fronts(OnData(H, files, cur, f).cur, w)
    ensures !OnData(H, files, cur, f).Rejected? ==> Stands(files, f, w) && Fronts(cur, w)
  {
    hide Admit, CurrentOk, ChunkLayout.Len;
    if !OnData(H, files, cur, f).Rejected? {
      AdmitOk(files, cur, f.header);
      AdmitPlaces(files, cur, f.header);
      var mid := Admit(files, cur, f.header).value;
      MidStarts(files, mid);
      Behind(w.bytes, mid.buf, f.payload);
    }
  }

  /** An admitted frame continues its chunk where the buffer ends. */
  lemma AdmitPlaces(files: Targets, cur: Current, h: FrameHeader)
    requires AllValid(files) && CurrentOk(files, cur) && Admit(files, cur, h).Ok?
    ensures
      var mid := Admit(files, cur, h).value;
      h.fileId == mid.fileId && h.offset == mid.start + |mid.buf| && (cur.Mid? ==> cur == mid)
  {
    hide CurrentOk;
  }

  lemma MidStarts(files: Targets, mid: Current)
    requires AllValid(files) && CurrentOk(files, mid) && mid.Mid?
    ensures mid.fileId in files && mid.start == files[mid.fileId].layout.Start(mid.index)
  {
  }

  lemma Behind(s: seq<byte>, a: seq<byte>, b: seq<byte>)
    requires |a| + |b| <= |s| && s[..|a| + |b|] == a + b
    ensures s[..|a|] == a && s[|a|..|a| + |b|] == b
  {
    assert s[..|a|] == s[..|a| + |b|][..|a|];
    assert s[|a|..|a| + |b|] == s[..|a| + |b|][|a|..];
  }

  /** A token that does no harm: a keepalive, or a data frame whose payload stands in a write. */
  ghost predicate Settled(files: Targets, t: Token, writes: seq<Write>) {
    t.Whole? && (t.frame.header.msgType == Keepalive ||
                 (t.frame.header.msgType == FileData && SomeStands(files, t.frame, writes)))
  }

  /** One turn of a reading that ends well. */
  lemma OkUnfolds(H: Hasher, files: Targets, tokens: seq<Token>, broken: bool, cur: Current)
    requires AllValid(files) && CurrentOk(files, cur) && Readable(tokens) && tokens != []
    requires Run(H, files, tokens, broken, cur).outcome.Ok?
    ensures Readable(tokens[1..]) && CurrentOk(files, Between) && tokens[0].Whole?
    ensures
      var f, rest, run := tokens[0].frame, tokens[1..], Run(H, files, tokens, broken, cur);
      var step := OnData(H, files, cur, f);
      && (f.header.msgType == Keepalive ==> run == Run(H, files, rest, broken, cur))
      && (f.header.msgType != Keepalive ==> f.header.msgType == FileData && !step.Rejected?)
      && (f.header.msgType != Keepalive && step.More? ==>
            step.cur.Mid? && CurrentOk(files, step.cur) && run == Run(H, files, rest, broken, step.cur))
      && (f.header.msgType != Keepalive && step.Landed? ==>
            run == Prepend(step.write, Run(H, files, rest, broken, Between)))
  {
    hide CurrentOk, OnData, Admit;
    BetweenOk(files);
    OnDataOk(H, files, cur, tokens[0].frame);
    MoreIsMid(H, files, cur, tokens[0].frame);
  }

  /** A worker that returns Ok has seen only keepalives and data frames, all whole, and each data frame's
      payload stands in one of its writes, in the file and at the offset the frame's header names. */
  lemma {:induction false} PayloadsStand(H: Hasher, files: Targets, tokens: seq<Token>, broken: bool, cur: Current,
                                         p: nat)
    requires AllValid(files) && CurrentOk(files, cur) && Readable(tokens)
    requires Run(H, files, tokens, broken, cur).outcome.Ok?
    ensures
      var writes := Run(H, files, tokens, broken, cur).writes;
      && !broken
      && (cur.Mid? ==> writes != [] && Fronts(cur, writes[0]))
      && (p < |tokens| ==> Settled(files, tokens[p], writes))
    decreases |tokens|
  {
    if tokens != [] {
      hide CurrentOk, OnData, Stands, Fronts, Run, Readable, Settled, Frame.WellFormed;
      OkUnfolds(H, files, tokens, broken, cur);
      var f, rest := tokens[0].frame, tokens[1..];
      var q := if p > 0 then p - 1 else 0;
      var writes := Run(H, files, tokens, broken, cur).writes;
      if f.header.msgType == Keepalive {
        PayloadsStand(H, files, rest, broken, cur, q);
        KeepaliveSettles(files, tokens[0], writes);
      } else {
        match OnData(H, files, cur, f)
        case More(next) =>
          PayloadsStand(H, files, rest, broken, next, q);
          FrameStands(H, files, cur, f, writes[0]);
          DataSettles(files, tokens[0], writes);
        case Landed(w) =>
          PayloadsStand(H, files, rest, broken, Between, q);
          BetweenFronts();
          FrameStands(H, files, cur, f, w);
          DataSettles(files, tokens[0], writes);
          if 0 < p < |tokens| { SettledLater(files, tokens[p], w, Run(H, files, rest, broken, Between).writes); }
      }
    }
  }

  lemma MoreIsMid(H: Hasher, files: Targets, cur: Current, f: Frame)
    requires AllValid(files) && CurrentOk(files, cur)
    ensures OnData(H, files, cur, f).More? ==> OnData(H, files, cur, f).cur.Mid?
  {
    hide CurrentOk;
    if Admit(files, cur, f.header).Ok? { AdmitOk(files, cur, f.header); }
  }

  lemma BetweenFronts()
    ensures forall w :: Fronts(Between, w)
  {
  }

  lemma KeepaliveSettles(files: Targets, t: Token, writes: seq<Write>)
    requires t.Whole? && t.frame.header.msgType == Keepalive
    ensures Settled(files, t, writes)
  {
  }

  lemma DataSettles(files: Targets, t: Token, writes: seq<Write>)
    requires t.Whole? && t.frame.header.msgType == FileData && writes != [] && Stands(files, t.frame, writes[0])
    ensures Settled(files, t, writes)
  {
    hide Stands;
  }

  lemma SettledLater(files: Targets, t: Token, w: Write, writes: seq<Write>)
    requires Settled(files, t, writes)
    ensures Settled(files, t, [w] + writes)
  {
    hide SomeStands;
    if t.frame.header.msgType == FileData { StandsLater(files, t.frame, w, writes); }
  }

  lemma StandsLater(files: Targets, f: Frame, w: Write, writes: seq<Write>)
    requires SomeStands(files, f, writes)
    ensures SomeStands(files, f, [w] + writes)
  {
    hide Stands;
    var k :| 0 <= k < |writes| && Stands(files, f, writes[k]);
    assert ([w] + writes)[k + 1] == writes[k];
  }

  // ----- what the writes do to the files ----------------------------------------------

  type Disk = map<u64, seq<byte>>
  type Marks = map<u64, set<nat>>

  /** Every file has its reserved length. */
  ghost predicate Sized(files: Targets, disk: Disk) {
    forall id :: id in files ==> id in disk && |disk[id]| == files[id].layout.fileSize
  }

  /** The meaning of a bit: the chunk on disk has the committed hash. */
  ghost predicate Sound(H: Hasher, files: Targets, disk: Disk, marks: Marks)
    requires AllValid(files) && Sized(files, disk)
  {
    forall id, i :: id in files && id in marks && i in marks[id] ==>
      i < files[id].layout.count && H(files[id].layout.Slice(disk[id], i)) == files[id].hashes[i]
  }

  function ApplyOne(files: Targets, disk: Disk, w: Write): Disk
    requires w.fileId in files && files[w.fileId].Valid() && w.fileId in disk
    requires w.index < files[w.fileId].layout.count && |w.bytes| == files[w.fileId].layout.Len(w.index)
    requires |disk[w.fileId]| == files[w.fileId].layout.fileSize
  {
    disk[w.fileId := Placed(files[w.fileId].layout, disk[w.fileId], w.index, w.bytes)]
  }

  function MarkOne(marks: Marks, w: Write): Marks {
    marks[w.fileId := (if w.fileId in marks then marks[w.fileId] else {}) + {w.index as nat}]
  }

  lemma ApplyOneKeepsSound(H: Hasher, files: Targets, disk: Disk, marks: Marks, w: Write)
    requires AllValid(files) && Sized(files, disk) && Committed(H, files, w)
    ensures Sized(files, ApplyOne(files, disk, w))
    ensures Sound(H, files, disk, marks) ==> Sound(H, files, ApplyOne(files, disk, w), MarkOne(marks, w))
  {
    var disk', marks' := ApplyOne(files, disk, w), MarkOne(marks, w);
    if Sound(H, files, disk, marks) {
      forall id, i | id in files && id in marks' && i in marks'[id]
        ensures i < files[id].layout.count && H(files[id].layout.Slice(disk'[id], i)) == files[id].hashes[i]
      {
        if id == w.fileId && i < files[id].layout.count {
          PlacedSlice(files[id].layout, disk[id], w.index, w.bytes, i);
        }
      }
    }
  }

  ghost predicate AllCommitted(H: Hasher, files: Targets, writes: seq<Write>) {
    forall w :: w in writes ==> Committed(H, files, w)
  }

  /** The files and bitmaps a session starts from or ends with. */
  datatype Store = Store(disk: Disk, marks: Marks)

  /** The effect of a sequence of verified writes, each followed by setting its bit. */
  ghost function Replay(H: Hasher, files: Targets, store: Store, writes: seq<Write>): (after: Store)
    requires AllValid(files) && Sized(files, store.disk) && AllCommitted(H, files, writes)
    ensures Sized(files, after.disk)
    ensures Sound(H, files, store.disk, store.marks) ==> Sound(H, files, after.disk, after.marks)
  {
    if writes == [] then store
    else
      var w := writes[|writes| - 1];
      var before := Replay(H, files, store, writes[..|writes| - 1]);
      ApplyOneKeepsSound(H, files, before.disk, before.marks, w);
      Store(ApplyOne(files, before.disk, w), MarkOne(before.marks, w))
  }

  lemma ApplyOneSlice(H: Hasher, files: Targets, disk: Disk, w: Write, id: u64, i: u64)
    requires AllValid(files) && Sized(files, disk) && Committed(H, files, w)
    requires id in files && i < files[id].layout.count
    ensures Sized(files, ApplyOne(files, disk, w))
    ensures files[id].layout.Slice(ApplyOne(files, disk, w)[id], i)
         == if w.fileId == id && w.index == i then w.bytes else files[id].layout.Slice(disk[id], i)
  {
    if w.fileId == id { PlacedSlice(files[id].layout, disk[id], w.index, w.bytes, i); }
  }

  predicate Names(writes: seq<Write>, id: u64, i: u64) {
    exists k :: 0 <= k < |writes| && writes[k].fileId == id && writes[k].index == i
  }

  /** A chunk no write names keeps its bytes; a chunk some write names ends with the committed hash. */
  lemma {:induction false} ReplayTouchesOnlyWrites(H: Hasher, files: Targets, store: Store, writes: seq<Write>,
                                                   id: u64, i: u64)
    requires AllValid(files) && Sized(files, store.disk) && AllCommitted(H, files, writes)
    requires id in files && i < files[id].layout.count
    ensures
      var l, after := files[id].layout, Replay(H, files, store, writes);
      && (!Names(writes, id, i) ==> l.Slice(after.disk[id], i) == l.Slice(store.disk[id], i))
      && (Names(writes, id, i) ==> H(l.Slice(after.disk[id], i)) == files[id].hashes[i])
    decreases |writes|
  {
    hide ApplyOne, MarkOne, Sound, ChunkLayout.Slice, ChunkLayout.Len;
    if writes != [] {
      var w, front := writes[|writes| - 1], writes[..|writes| - 1];
      ReplayTouchesOnlyWrites(H, files, store, front, id, i);
      ApplyOneSlice(H, files, Replay(H, files, store, front).disk, w, id, i);
      NamesLast(writes, id, i);
    }
  }

  lemma NamesLast(writes: seq<Write>, id: u64, i: u64)
    requires writes != []
    ensures
      var w := writes[|writes| - 1];
      Names(writes, id, i) <==> Names(writes[..|writes| - 1], id, i) || (w.fileId == id && w.index == i)
  {
    var front := writes[..|writes| - 1];
    if Names(front, id, i) {
      var k :| 0 <= k < |front| && front[k].fileId == id && front[k].index == i;
      assert writes[k] == front[k];
    }
    if Names(writes, id, i) {
      var k :| 0 <= k < |writes| && writes[k].fileId == id && writes[k].index == i;
      if k < |front| { assert front[k] == writes[k]; }
    }
  }

  // ----- the loop ------------------------------------------------------------------------

  /** What one turn of the reading loop comes to: the end, or the rest of the stream. */
  datatype Turn =
    | Stop(result: Drained)
    | Go(rest: seq<byte>, next: Current)
    | Wrote(write: Write, rest: seq<byte>)

  /** One turn: read a header, check it, read its payload, perhaps complete a chunk. */
  function TurnOf(H: Hasher, files: Targets, bytes: seq<byte>, broken: bool, cur: Current): Turn
    requires AllValid(files) && CurrentOk(files, cur)
  {
    if |bytes| < HEADER_LEN then
      Stop(if broken then Fail(Io) else if cur.Between? then Drained([], Ok(())) else Fail(Incomplete))
    else match Decode(bytes[..HEADER_LEN])
      case Err(e) => Stop(Fail(Codec(e)))
      case Ok(h) => HeaderTurn(H, files, h, bytes[HEADER_LEN..], cur)
  }

  function HeaderTurn(H: Hasher, files: Targets, h: FrameHeader, rest: seq<byte>, cur: Current): Turn
    requires AllValid(files) && CurrentOk(files, cur)
  {
    match h.msgType
    case Keepalive => Go(rest, cur)
    case FileData =>
      if |rest| < h.length then
        Stop(Fail(if Admit(files, cur, h).Err? then Admit(files, cur, h).error else Io))
      else
        (match OnData(H, files, cur, Frame(h, rest[..h.length]))
         case Rejected(e) => Stop(Fail(e))
         case More(next) => Go(rest[h.length..], next)
         case Landed(w) => Wrote(w, rest[h.length..]))
    case other => Stop(Fail(UnexpectedType(other)))
  }

  /** A turn agrees with the recursive reading of the whole stream. */
  lemma RunUnfolds(H: Hasher, files: Targets, bytes: seq<byte>, broken: bool, cur: Current)
    requires AllValid(files) && CurrentOk(files, cur)
    ensures Readable(Tokens(bytes))
    ensures
      var t, run := TurnOf(H, files, bytes, broken, cur), Run(H, files, Tokens(bytes), broken, cur);
      && (t.Stop? ==> run == t.result)
      && (t.Go? ==>
            |t.rest| < |bytes| && CurrentOk(files, t.next) && Readable(Tokens(t.rest)) &&
            run == Run(H, files, Tokens(t.rest), broken, t.next))
      && (t.Wrote? ==>
            |t.rest| < |bytes| && Committed(H, files, t.write) && Readable(Tokens(t.rest)) &&
            run == Prepend(t.write, Run(H, files, Tokens(t.rest), broken, Between)))
  {
    hide Decode, CurrentOk, OnData, Admit, Committed, FrameHeader.ToBytes;
    TokensReadable(bytes);
    BetweenOk(files);
    if |bytes| >= HEADER_LEN && Decode(bytes[..HEADER_LEN]).Ok? {
      var h := Decode(bytes[..HEADER_LEN]).value;
      var n := PayloadLen(h);
      var rest := bytes[HEADER_LEN..];
      if |rest| >= n {
        TokensReadable(rest[n..]);
        OnDataOk(H, files, cur, Frame(h, rest[..n]));
        assert Tokens(bytes)[1..] == Tokens(rest[n..]);
      }
    }
  }

  lemma TokensReadable(bytes: seq<byte>)
    ensures Readable(Tokens(bytes))
  {
    forall i | 0 <= i < |Tokens(bytes)| && Tokens(bytes)[i].Whole?
      ensures Tokens(bytes)[i].frame.WellFormed()
    {
      TokensWellFormed(bytes, i);
    }
  }

  /** What is left to do, with `done` already written, is still the whole stream's result. */
  ghost predicate OnTrack(H: Hasher, files: Targets, bytes: seq<byte>, broken: bool, cur: Current,
                          done: seq<Write>, goal: Drained)
    requires AllValid(files)
  {
    && CurrentOk(files, cur)
    && Readable(Tokens(bytes))
    && var rest := Run(H, files, Tokens(bytes), broken, cur);
       goal == rest.(writes := done + rest.writes)
  }

  /** `verify_and_write` for a full buffer, then the bitmap. */
  method WriteChunk(H: Hasher, files: Targets, store: Store, w: Write, ghost base: Store, ghost done: seq<Write>)
    returns (store': Store)
    requires AllValid(files) && Sized(files, base.disk) && AllCommitted(H, files, done) && Committed(H, files, w)
    requires store == Replay(H, files, base, done)
    ensures AllCommitted(H, files, done + [w])
    ensures store' == Replay(H, files, base, done + [w])
  {
    assert (done + [w])[..|done|] == done;
    store' := Store(ApplyOne(files, store.disk, w), MarkOne(store.marks, w));
  }

  lemma OnTrackTurn(H: Hasher, files: Targets, bytes: seq<byte>, broken: bool, cur: Current,
                    done: seq<Write>, goal: Drained)
    requires AllValid(files) && CurrentOk(files, cur) && OnTrack(H, files, bytes, broken, cur, done, goal)
    ensures
      var t := TurnOf(H, files, bytes, broken, cur);
      && (t.Stop? ==> goal == t.result.(writes := done + t.result.writes))
      && (t.Go? ==> |t.rest| < |bytes| && OnTrack(H, files, t.rest, broken, t.next, done, goal))
      && (t.Wrote? ==>
            |t.rest| < |bytes| && Committed(H, files, t.write) &&
            OnTrack(H, files, t.rest, broken, Between, done + [t.write], goal))
  {
    hide TurnOf, Run, Committed, CurrentOk, Readable, Tokens;
    RunUnfolds(H, files, bytes, broken, cur);
    BetweenOk(files);
    var t := TurnOf(H, files, bytes, broken, cur);
    if t.Wrote? {
      var rest := Run(H, files, Tokens(t.rest), broken, Between).writes;
      assert done + ([t.write] + rest) == (done + [t.write]) + rest;
    }
  }

  type Position = Option<(u64, u64, u64, u32)>

  /** `current` and `buf` together. */
  function View(current: Position, buf: seq<byte>): Current {
    match current
    case None => Between
    case Some((fileId, index, start, len)) => Mid(fileId, index, start, len, buf)
  }

  /** The body of the loop once a data header has arrived: `current` and `buf` are updated in
      place, and a completed chunk is verified and written. */
  method OnFrame(H: Hasher, files: Targets, h: FrameHeader, rest: seq<byte>, current: Position, buf: seq<byte>)
    returns (current': Position, buf': seq<byte>, rest': seq<byte>, write: Option<Write>, error: Option<DrainError>)
    requires AllValid(files) && CurrentOk(files, View(current, buf)) && h.msgType == FileData
    ensures
      var t := HeaderTurn(H, files, h, rest, View(current, buf));
      && (error.Some? <==> t.Stop?) && (error.Some? ==> t.result == Fail(error.value))
      && (error.None? && write.Some? ==> t == Wrote(write.value, rest') && current' == None)
      && (error.None? && write.None? ==> t == Go(rest', View(current', buf')))
  {
    hide Admit, CurrentOk;
    current', buf', rest', write, error := current, buf, rest, None, None;
    var admitted := Admit(files, View(current, buf), h);
    if admitted.Err? {
      error := Some(admitted.error);
      return;
    }
    AdmitOk(files, View(current, buf), h);
    var mid := admitted.value;
    if current.None? { buf' := []; }
    current' := Some((mid.fileId, mid.index, mid.start, mid.len));
    if |rest| < h.length {
      error := Some(Io);
      return;
    }
    buf', rest' := buf' + rest[..h.length], rest[h.length..];
    if |buf'| == mid.len {
      if H(buf') != files[mid.fileId].hashes[mid.index] {
        error := Some(ChunkVerificationFailed(mid.start));
        return;
      }
      write := Some(Write(mid.fileId, mid.index, buf'));
      buf', current' := [], None;
    }
  }

  /** `drain_stream`: for every byte stream, the outcome and the files are those of the
      recursive reading, and the files got nothing but its committed writes. */
  method DrainStream(H: Hasher, files: Targets, bytes: seq<byte>, broken: bool, store: Store)
    returns (outcome: Result<(), DrainError>, store': Store)
    requires AllValid(files) && Sized(files, store.disk)
    ensures Readable(Tokens(bytes)) && CurrentOk(files, Between)
    ensures
      var run := Run(H, files, Tokens(bytes), broken, Between);
      AllCommitted(H, files, run.writes) && outcome == run.outcome && store' == Replay(H, files, store, run.writes)
  {
    hide Run, Tokens, Readable, CurrentOk, Committed, Decode, HeaderTurn, Replay, OnTrack;
    ghost var goal := Begin(H, files, bytes, broken, store);
    var rest, current: Position, buf: seq<byte> := bytes, None, [];
    ghost var done: seq<Write> := [];
    store' := store;
    while true
      invariant CurrentOk(files, View(current, buf))
      invariant OnTrack(H, files, rest, broken, View(current, buf), done, goal)
      invariant AllCommitted(H, files, done) && store' == Replay(H, files, store, done)
      decreases |rest|
    {
      OnTrackTurn(H, files, rest, broken, View(current, buf), done, goal);
      TrackOk(H, files, rest, broken, View(current, buf), done, goal);
      assert done + [] == done;
      if |rest| < HEADER_LEN {
        if broken { return Err(Io), store'; }
        break;
      }
      var header := Decode(rest[..HEADER_LEN]);
      if header.Err? { return Err(Codec(header.error)), store'; }
      var h := header.value;
      match h.msgType {
        case Keepalive =>
          KeepaliveTurn(H, files, h, rest[HEADER_LEN..], View(current, buf));
          rest := rest[HEADER_LEN..];
        case FileData =>
          var write, error;
          current, buf, rest, write, error := OnFrame(H, files, h, rest[HEADER_LEN..], current, buf);
          if error.Some? { return Err(error.value), store'; }
          if write.Some? {
            store' := WriteChunk(H, files, store', write.value, store, done);
            done := done + [write.value];
          }
          TrackOk(H, files, rest, broken, View(current, buf), done, goal);
        case _ =>
          OtherTurn(H, files, h, rest[HEADER_LEN..], View(current, buf));
          return Err(UnexpectedType(h.msgType)), store';
      }
    }
    if current.Some? { return Err(Incomplete), store'; }
    return Ok(()), store';
  }

  lemma TrackOk(H: Hasher, files: Targets, bytes: seq<byte>, broken: bool, cur: Current, done: seq<Write>,
                goal: Drained)
    requires AllValid(files) && OnTrack(H, files, bytes, broken, cur, done, goal)
    ensures CurrentOk(files, cur)
  {
  }

  lemma KeepaliveTurn(H: Hasher, files: Targets, h: FrameHeader, rest: seq<byte>, cur: Current)
    requires AllValid(files) && CurrentOk(files, cur) && h.msgType == Keepalive
    ensures HeaderTurn(H, files, h, rest, cur) == Go(rest, cur)
  {
  }

  lemma OtherTurn(H: Hasher, files: Targets, h: FrameHeader, rest: seq<byte>, cur: Current)
    requires AllValid(files) && CurrentOk(files, cur) && h.msgType in {Control, FileEnd}
    ensures HeaderTurn(H, files, h, rest, cur) == Stop(Fail(UnexpectedType(h.msgType)))
  {
  }

  lemma Begin(H: Hasher, files: Targets, bytes: seq<byte>, broken: bool, store: Store) returns (goal: Drained)
    requires AllValid(files) && Sized(files, store.disk)
    ensures Readable(Tokens(bytes)) && CurrentOk(files, Between)
    ensures goal == Run(H, files, Tokens(bytes), broken, Between)
    ensures AllCommitted(H, files, goal.writes) && store == Replay(H, files, store, [])
    ensures OnTrack(H, files, bytes, broken, Between, [], goal)
  {
    TokensReadable(bytes);
    BetweenOk(files);
    goal := Run(H, files, Tokens(bytes), broken, Between);
    WritesAreCommitted(H, files, Tokens(bytes), broken, Between);
    assert [] + goal.writes == goal.writes;
  }
}
