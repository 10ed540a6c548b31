// Crash-safe resume: over every run of the receiver machine, every bit in every
// record ever renamed into place names a chunk whose durable bytes have the
// committed hash, and it stays so through all later writes and crashes.

module CrashSafety {
  import opened Base
  import opened Layout
  import opened Bitmaps
  import opened Record
  import opened Receiver
  import opened Traces

  // ----- the invariant ------------------------------------------------------------------

  ghost predicate Fits(spec: Spec, v: Bitmap)
    requires spec.Valid()
  {
    v.Valid() && v.count == spec.layout.count
  }

  /** Chunk `i` has the committed hash both as read now and after a power loss. */
  ghost predicate Safe(spec: Spec, s: State, i: nat)
    requires spec.Valid()
  {
    spec.Holds(s.durable, i) && spec.Holds(s.cache, i)
  }

  ghost predicate RecordGood(spec: Spec, s: State, v: Bitmap)
    requires spec.Valid()
  {
    Fits(spec, v) && forall i :: i in v.Members() ==> Safe(spec, s, i)
  }

  ghost predicate DiskInv(spec: Spec, s: State)
    requires spec.Valid()
  {
    && (forall v :: v in s.renamed ==> RecordGood(spec, s, v))
    && (s.sidecar.Some? ==> exists v :: v in s.renamed && s.sidecar.value == EncodeRecord(spec.H, spec.key, v))
    && (s.completed ==> forall i: nat :: i < spec.layout.count ==> Safe(spec, s, i))
  }

  /** Byte `p` has reached the disk. */
  ghost predicate ByteOnDisk(s: State, p: nat) {
    p < |s.durable| && p < |s.cache| && s.durable[p] == s.cache[p]
  }

  /** All bytes of chunk `i` that are not `dirty` have reached the disk. */
  ghost predicate ChunkFlushed(spec: Spec, s: State, i: nat, dirty: set<nat>) {
    forall p: nat :: spec.InChunk(i, p) && p !in dirty ==> ByteOnDisk(s, p)
  }

  ghost predicate Snapshotted(spec: Spec, s: State, v: Bitmap)
    requires spec.Valid()
  {
    Fits(spec, v) && forall i :: i in v.Members() ==> spec.Holds(s.cache, i)
  }

  ghost predicate WorkerInv(spec: Spec, s: State, bitmap: Bitmap, x: Worker)
    requires spec.Valid() && bitmap.Sized()
  {
    match x
    case Writing(index, bytes) => spec.Verified(index, bytes)
    case Written(index) => spec.Holds(s.cache, index)
    case Marked(index) => index in bitmap.Members()
    case Snapped(v) => Snapshotted(spec, s, v)
    case Syncing(v, dirty) =>
      Snapshotted(spec, s, v) && forall i :: i in v.Members() ==> ChunkFlushed(spec, s, i, dirty)
    case Synced(v) => RecordGood(spec, s, v)
    case Stored(v) => RecordGood(spec, s, v)
    case _ => true
  }

  ghost predicate FinishInv(spec: Spec, s: State, finish: Finish)
    requires spec.Valid()
  {
    match finish
    case NotYet => true
    case Flushing(dirty) =>
      forall i: nat :: i < spec.layout.count ==> spec.Holds(s.cache, i) && ChunkFlushed(spec, s, i, dirty)
    case Done => s.completed
  }

  ghost predicate SessionInv(spec: Spec, s: State, ses: Session)
    requires spec.Valid()
  {
    && (spec.layout.fileSize > 0 ==> |s.cache| == spec.layout.fileSize)
    && Snapshotted(spec, s, ses.bitmap)
    && (forall k :: 0 <= k < |ses.workers| ==> WorkerInv(spec, s, ses.bitmap, ses.workers[k]))
    && FinishInv(spec, s, ses.finish)
  }

  ghost predicate Inv(spec: Spec, s: State)
    requires spec.Valid()
  {
    DiskInv(spec, s) && (s.session.Some? ==> SessionInv(spec, s, s.session.value))
  }

  // ----- what is asked of the hash ----------------------------------------------------------

  /** Two images of the file never differ in a chunk that has the committed hash in both. */
  ghost predicate ImagesApart(spec: Spec, a: seq<byte>, b: seq<byte>)
    requires spec.Valid()
  {
    |a| == |b| == spec.layout.fileSize ==>
      forall i: nat :: i < spec.layout.count ==> spec.Apart(i, spec.layout.Slice(a, i), spec.layout.Slice(b, i))
  }

  /** A chunk being written does not collide with the bytes it overwrites. */
  ghost predicate WriteApart(spec: Spec, cache: seq<byte>, x: Worker)
    requires spec.Valid()
  {
    x.Writing? && x.index < spec.layout.count && |cache| == spec.layout.fileSize ==>
      spec.Apart(x.index, x.bytes, spec.layout.Slice(cache, x.index))
  }

  /** No collision among the strings that meet in this state: each chunk as cached, as on disk, and
      as about to be written. */
  ghost predicate NoCollision(spec: Spec, s: State)
    requires spec.Valid()
  {
    && ImagesApart(spec, s.cache, s.durable)
    && (s.session.Some? ==> forall k :: 0 <= k < |s.session.value.workers| ==>
          WriteApart(spec, s.cache, s.session.value.workers[k]))
  }

  /** No collision in the first `n` states of a run. */
  ghost predicate NoCollisions(spec: Spec, states: seq<State>, n: nat)
    requires spec.Valid() && n <= |states|
  {
    forall m :: 0 <= m < n ==> NoCollision(spec, states[m])
  }

  // ----- bytes and chunks -----------------------------------------------------------------

  lemma SliceAt(l: ChunkLayout, c: seq<byte>, i: nat, p: nat)
    requires l.Valid() && i < l.count && |c| == l.fileSize && l.Start(i) <= p < l.Start(i) + l.Len(i)
    ensures l.Slice(c, i)[p - l.Start(i)] == c[p]
  {
  }

  lemma SameBytesSameSlice(spec: Spec, a: seq<byte>, b: seq<byte>, i: nat)
    requires spec.Valid() && i < spec.layout.count && |a| == |b| == spec.layout.fileSize
    requires forall p: nat :: spec.InChunk(i, p) ==> a[p] == b[p]
    ensures spec.layout.Slice(a, i) == spec.layout.Slice(b, i)
  {
    var l := spec.layout;
    forall q | 0 <= q < l.Len(i)
      ensures l.Slice(a, i)[q] == l.Slice(b, i)[q]
    {
      assert spec.InChunk(i, l.Start(i) + q);
      SliceAt(l, a, i, l.Start(i) + q);
      SliceAt(l, b, i, l.Start(i) + q);
    }
  }

  /** Two images that both hold a chunk agree on its bytes. */
  lemma HeldBytesAgree(spec: Spec, a: seq<byte>, b: seq<byte>, i: nat, p: nat)
    requires spec.Valid() && ImagesApart(spec, a, b) && spec.Holds(a, i) && spec.Holds(b, i) && spec.InChunk(i, p)
    ensures a[p] == b[p]
  {
    var l := spec.layout;
    assert spec.Apart(i, l.Slice(a, i), l.Slice(b, i));
    SliceAt(l, a, i, p);
    SliceAt(l, b, i, p);
  }

  lemma InOneChunk(spec: Spec, i: nat, j: nat, p: nat)
    requires spec.Valid() && spec.InChunk(i, p) && spec.InChunk(j, p)
    ensures i == j
  {
    if i < j { ChunksDisjoint(spec.layout, i, j); }
    if j < i { ChunksDisjoint(spec.layout, j, i); }
  }

  /** Nothing that was good is disturbed: chunks held in the cache keep their bytes, bytes of held
      chunks that reached the disk stay there, and safe chunks stay safe. */
  ghost predicate Calm(spec: Spec, s: State, s': State)
    requires spec.Valid()
  {
    && (|s.cache| == spec.layout.fileSize ==> |s'.cache| == spec.layout.fileSize)
    && (forall i :: spec.Holds(s.cache, i) ==> spec.Holds(s'.cache, i))
    && (forall i, p: nat :: spec.Holds(s.cache, i) && spec.InChunk(i, p) && ByteOnDisk(s, p) ==> ByteOnDisk(s', p))
    && (forall i :: Safe(spec, s, i) ==> Safe(spec, s', i))
  }

  /** A write, whole or partial, of a verified chunk is calm. */
  lemma WriteIsCalm(spec: Spec, s: State, s': State, j: nat, bytes: seq<byte>)
    requires spec.Valid() && spec.Verified(j, bytes) && WriteApart(spec, s.cache, Writing(j, bytes))
    requires |s'.cache| == |s.cache| == spec.layout.fileSize && s'.durable == s.durable
    requires forall p :: 0 <= p < |s.cache| ==>
        s'.cache[p] == s.cache[p] || (spec.InChunk(j, p) && s'.cache[p] == bytes[p - spec.layout.Start(j)])
    ensures Calm(spec, s, s')
  {
    forall i, p: nat | spec.Holds(s.cache, i) && spec.InChunk(i, p)
      ensures s'.cache[p] == s.cache[p]
    {
      if spec.InChunk(j, p) {
        InOneChunk(spec, i, j, p);
        assert spec.layout.Slice(s.cache, i) == bytes;
        SliceAt(spec.layout, s.cache, i, p);
      }
    }
    forall i | spec.Holds(s.cache, i)
      ensures spec.Holds(s'.cache, i)
    {
      SameBytesSameSlice(spec, s.cache, s'.cache, i);
    }
  }

  /** Write-back of any set of bytes is calm. */
  lemma FlushIsCalm(spec: Spec, s: State, s': State)
    requires spec.Valid() && ImagesApart(spec, s.cache, s.durable)
    requires s'.cache == s.cache && |s'.durable| == |s.durable|
    requires forall p :: 0 <= p < |s.durable| ==>
        s'.durable[p] == s.durable[p] || (p < |s.cache| && s'.durable[p] == s.cache[p])
    ensures Calm(spec, s, s')
  {
    forall i | Safe(spec, s, i)
      ensures Safe(spec, s', i)
    {
      forall p: nat | spec.InChunk(i, p)
        ensures s'.durable[p] == s.durable[p]
      {
        HeldBytesAgree(spec, s.cache, s.durable, i, p);
      }
      SameBytesSameSlice(spec, s.durable, s'.durable, i);
    }
  }

  lemma LengthIsCalm(spec: Spec, s: State, s': State)
    requires spec.Valid() && s'.cache == s.cache && s'.durable == Resize(s.durable, |s.cache|)
    ensures Calm(spec, s, s')
  {
  }

  lemma SameDiskIsCalm(spec: Spec, s: State, s': State)
    requires spec.Valid() && s'.cache == s.cache && s'.durable == s.durable
    ensures Calm(spec, s, s')
  {
  }

  // ----- calm steps keep everything ----------------------------------------------------------

  lemma CalmKeepsRecord(spec: Spec, s: State, s': State, v: Bitmap)
    requires spec.Valid() && Calm(spec, s, s') && RecordGood(spec, s, v)
    ensures RecordGood(spec, s', v)
  {
    hide Bitmap.Valid, Bitmap.Members;
  }

  lemma CalmKeepsSnapshot(spec: Spec, s: State, s': State, v: Bitmap)
    requires spec.Valid() && Calm(spec, s, s') && Snapshotted(spec, s, v)
    ensures Snapshotted(spec, s', v)
  {
  }

  lemma CalmKeepsFlushed(spec: Spec, s: State, s': State, i: nat, dirty: set<nat>)
    requires spec.Valid() && Calm(spec, s, s') && spec.Holds(s.cache, i) && ChunkFlushed(spec, s, i, dirty)
    ensures ChunkFlushed(spec, s', i, dirty)
  {
  }

  lemma CalmKeepsWorker(spec: Spec, s: State, s': State, bitmap: Bitmap, bitmap': Bitmap, x: Worker)
    requires spec.Valid() && Calm(spec, s, s') && bitmap.Sized() && bitmap'.Sized()
    requires bitmap.Members() <= bitmap'.Members() && WorkerInv(spec, s, bitmap, x)
    ensures WorkerInv(spec, s', bitmap', x)
  {
    hide RecordGood, ChunkFlushed, Bitmap.Members;
    match x
    case Snapped(v) => CalmKeepsSnapshot(spec, s, s', v);
    case Syncing(v, dirty) =>
      CalmKeepsSnapshot(spec, s, s', v);
      forall i | i in v.Members()
        ensures ChunkFlushed(spec, s', i, dirty)
      {
        CalmKeepsFlushed(spec, s, s', i, dirty);
      }
    case Synced(v) => CalmKeepsRecord(spec, s, s', v);
    case Stored(v) => CalmKeepsRecord(spec, s, s', v);
    case _ =>
  }

  lemma CalmKeepsFinish(spec: Spec, s: State, s': State, finish: Finish)
    requires spec.Valid() && Calm(spec, s, s') && FinishInv(spec, s, finish) && (s.completed ==> s'.completed)
    ensures FinishInv(spec, s', finish)
  {
    hide ChunkFlushed;
    if finish.Flushing? {
      forall i: nat | i < spec.layout.count
        ensures spec.Holds(s'.cache, i) && ChunkFlushed(spec, s', i, finish.dirty)
      {
        CalmKeepsFlushed(spec, s, s', i, finish.dirty);
      }
    }
  }

  lemma CalmKeepsDisk(spec: Spec, s: State, s': State)
    requires spec.Valid() && Calm(spec, s, s') && DiskInv(spec, s)
    requires s'.renamed == s.renamed && s'.completed == s.completed && (s'.sidecar == s.sidecar || s'.sidecar == None)
    ensures DiskInv(spec, s')
  {
    hide RecordGood, Safe, EncodeRecord;
    forall v | v in s'.renamed
      ensures RecordGood(spec, s', v)
    {
      CalmKeepsRecord(spec, s, s', v);
    }
  }

  /** One worker moves, calmly, while the others and the finish phase stay where they are. */
  lemma OneWorkerMoves(spec: Spec, s: State, s': State, w: nat, x: Worker)
    requires spec.Valid() && Inv(spec, s) && s.session.Some? && s'.session.Some? && Calm(spec, s, s')
    requires w < |s.session.value.workers| && s'.session.value.workers == s.session.value.workers[w := x]
    requires s'.session.value.finish == s.session.value.finish && s'.completed == s.completed
    requires DiskInv(spec, s') && Snapshotted(spec, s', s'.session.value.bitmap)
    requires s.session.value.bitmap.Members() <= s'.session.value.bitmap.Members()
    requires WorkerInv(spec, s', s'.session.value.bitmap, x)
    ensures Inv(spec, s')
  {
    hide DiskInv, WorkerInv, FinishInv, Bitmap.Members, Safe, Bitmap.Has;
    var ses, ses' := s.session.value, s'.session.value;
    forall k | 0 <= k < |ses'.workers|
      ensures WorkerInv(spec, s', ses'.bitmap, ses'.workers[k])
    {
      if k != w { CalmKeepsWorker(spec, s, s', ses.bitmap, ses'.bitmap, ses.workers[k]); }
    }
    CalmKeepsFinish(spec, s, s', ses.finish);
  }

  /** What the invariant says about one worker. */
  lemma WorkerHas(spec: Spec, s: State, w: nat)
    requires spec.Valid() && Inv(spec, s) && s.session.Some? && w < |s.session.value.workers|
    ensures DiskInv(spec, s) && Snapshotted(spec, s, s.session.value.bitmap)
    ensures s.session.value.bitmap.Valid() && s.session.value.bitmap.Sized()
    ensures s.session.value.bitmap.count == spec.layout.count
    ensures WorkerInv(spec, s, s.session.value.bitmap, s.session.value.workers[w])
  {
    hide DiskInv, WorkerInv, FinishInv;
  }

  // ----- worker steps ---------------------------------------------------------------------------

  lemma PlacedBytes(spec: Spec, c: seq<byte>, j: nat, bytes: seq<byte>, p: nat)
    requires spec.Valid() && j < spec.layout.count && |bytes| == spec.layout.Len(j) && |c| == spec.layout.fileSize
      && p < |c|
    ensures Placed(spec.layout, c, j, bytes)[p] ==
            if spec.InChunk(j, p) then bytes[p - spec.layout.Start(j)] else c[p]
  {
  }

  /** Any part of a verified chunk may reach the file before a crash; that is calm too. */
  lemma PartialWriteIsCalm(spec: Spec, s: State, s': State, j: nat, bytes: seq<byte>, at: set<nat>)
    requires spec.Valid() && spec.Verified(j, bytes) && |s.cache| == spec.layout.fileSize
    requires WriteApart(spec, s.cache, Writing(j, bytes))
    requires s'.cache == Overlay(s.cache, Placed(spec.layout, s.cache, j, bytes), at) && s'.durable == s.durable
    ensures Calm(spec, s, s')
  {
    hide Placed, Calm, WriteApart;
    var r := Placed(spec.layout, s.cache, j, bytes);
    forall p | 0 <= p < |s.cache|
      ensures s'.cache[p] == s.cache[p] || (spec.InChunk(j, p) && s'.cache[p] == bytes[p - spec.layout.Start(j)])
    {
      PlacedBytes(spec, s.cache, j, bytes, p);
      assert s'.cache[p] == s.cache[p] || s'.cache[p] == r[p];
    }
    WriteIsCalm(spec, s, s', j, bytes);
  }

  lemma WholeWriteIsCalm(spec: Spec, s: State, s': State, j: nat, bytes: seq<byte>)
    requires spec.Valid() && spec.Verified(j, bytes) && |s.cache| == spec.layout.fileSize
    requires WriteApart(spec, s.cache, Writing(j, bytes))
    requires s'.cache == Placed(spec.layout, s.cache, j, bytes) && s'.durable == s.durable
    ensures Calm(spec, s, s')
  {
    hide Placed, Calm, WriteApart;
    forall p | 0 <= p < |s.cache|
      ensures s'.cache[p] == s.cache[p] || (spec.InChunk(j, p) && s'.cache[p] == bytes[p - spec.layout.Start(j)])
    {
      PlacedBytes(spec, s.cache, j, bytes, p);
    }
    WriteIsCalm(spec, s, s', j, bytes);
  }

  lemma WriterApart(spec: Spec, s: State, w: nat)
    requires spec.Valid() && NoCollision(spec, s) && s.session.Some? && w < |s.session.value.workers|
    ensures WriteApart(spec, s.cache, s.session.value.workers[w])
  {
  }

  lemma WriteSomeKeepsInv(spec: Spec, s: State, s': State, step: Step)
    requires spec.Valid() && NoCollision(spec, s) && Inv(spec, s) && s.session.Some?
    requires step.WriteSome? && step.w < |s.session.value.workers| && WorkerStep(spec, s, s', step, step.w)
    ensures Inv(spec, s')
  {
    hide Inv, SessionInv, DiskInv, FinishInv, Placed, Overlay, Calm, Snapshotted, Bitmap.Valid, Bitmap.Members,
      Bitmap.Sized, NoCollision, WriteApart, Spec.Holds;
    WorkerHas(spec, s, step.w);
    var x := s.session.value.workers[step.w];
    WriterApart(spec, s, step.w);
    PartialWriteIsCalm(spec, s, s', x.index, x.bytes, step.at);
    StayKeepsInv(spec, s, s');
  }

  /** A calm step that moves no worker. */
  lemma StayKeepsInv(spec: Spec, s: State, s': State)
    requires spec.Valid() && Inv(spec, s) && s'.session == s.session && Calm(spec, s, s')
    requires s'.renamed == s.renamed && s'.completed == s.completed && s'.sidecar == s.sidecar
    ensures Inv(spec, s')
  {
    hide WorkerInv, DiskInv, FinishInv, Safe, Bitmap.Members, ByteOnDisk, Spec.Holds;
    CalmKeepsDisk(spec, s, s');
    if s.session.Some? {
      var ses := s.session.value;
      CalmKeepsSnapshot(spec, s, s', ses.bitmap);
      CalmKeepsFinish(spec, s, s', ses.finish);
      forall k | 0 <= k < |ses.workers|
        ensures WorkerInv(spec, s', ses.bitmap, ses.workers[k])
      {
        CalmKeepsWorker(spec, s, s', ses.bitmap, ses.bitmap, ses.workers[k]);
      }
    }
  }

  lemma WriteEndKeepsInv(spec: Spec, s: State, s': State, step: Step)
    requires spec.Valid() && NoCollision(spec, s) && Inv(spec, s) && s.session.Some?
    requires step.WriteEnd? && step.w < |s.session.value.workers| && WorkerStep(spec, s, s', step, step.w)
    ensures Inv(spec, s')
  {
    hide Inv, SessionInv, DiskInv, FinishInv, Placed, Calm, Snapshotted, Bitmap.Valid, Bitmap.Members, Bitmap.Sized,
      NoCollision, WriteApart, Spec.Holds;
    WorkerHas(spec, s, step.w);
    var ses := s.session.value;
    var x := ses.workers[step.w];
    WriterApart(spec, s, step.w);
    WholeWriteIsCalm(spec, s, s', x.index, x.bytes);
    PlacedHolds(spec, s.cache, x.index, x.bytes);
    CalmKeepsDisk(spec, s, s');
    CalmKeepsSnapshot(spec, s, s', ses.bitmap);
    SnapshotFits(spec, s', ses.bitmap);
    OneWorkerMoves(spec, s, s', step.w, Written(x.index));
  }

  lemma SnapshotFits(spec: Spec, s: State, v: Bitmap)
    requires spec.Valid() && Snapshotted(spec, s, v)
    ensures v.Valid() && v.Sized() && v.count == spec.layout.count
  {
  }

  lemma SetBitKeepsInv(spec: Spec, s: State, s': State, step: Step)
    requires spec.Valid() && Inv(spec, s) && s.session.Some?
    requires step.SetBit? && step.w < |s.session.value.workers| && WorkerStep(spec, s, s', step, step.w)
    ensures Inv(spec, s')
  {
    hide Inv, SessionInv, DiskInv, FinishInv, Calm, Bitmap.Valid, WithBit, Bitmap.Members, Bitmap.Sized;
    WorkerHas(spec, s, step.w);
    var ses := s.session.value;
    var x := ses.workers[step.w];
    WithBitAddsMember(ses.bitmap, x.index);
    SameDiskIsCalm(spec, s, s');
    CalmKeepsDisk(spec, s, s');
    OneWorkerMoves(spec, s, s', step.w, Marked(x.index));
  }

  lemma SyncBeginKeepsInv(spec: Spec, s: State, s': State, step: Step)
    requires spec.Valid() && Inv(spec, s) && s.session.Some?
    requires step.SyncBegin? && step.w < |s.session.value.workers| && WorkerStep(spec, s, s', step, step.w)
    ensures Inv(spec, s')
  {
    hide Inv, SessionInv, DiskInv, FinishInv, Calm, Bitmap.Valid, Bitmap.Members, Bitmap.Sized;
    WorkerHas(spec, s, step.w);
    var ses := s.session.value;
    var x := ses.workers[step.w];
    SameDiskIsCalm(spec, s, s');
    CalmKeepsDisk(spec, s, s');
    OneWorkerMoves(spec, s, s', step.w, Syncing(x.record, Positions(|s.cache|)));
  }

  /** When every byte of a held chunk has reached a disk file of the full length, the chunk is safe. */
  lemma FlushedIsSafe(spec: Spec, s: State, i: nat)
    requires spec.Valid() && spec.Holds(s.cache, i) && ChunkFlushed(spec, s, i, {}) && |s.durable| == |s.cache|
    ensures Safe(spec, s, i)
  {
    forall p: nat | spec.InChunk(i, p)
      ensures s.durable[p] == s.cache[p]
    {
      assert ByteOnDisk(s, p);
    }
    SameBytesSameSlice(spec, s.durable, s.cache, i);
  }

  lemma SyncedIsGood(spec: Spec, s: State, v: Bitmap)
    requires spec.Valid() && Snapshotted(spec, s, v) && |s.durable| == |s.cache|
    requires forall i :: i in v.Members() ==> ChunkFlushed(spec, s, i, {})
    ensures RecordGood(spec, s, v)
  {
    hide ChunkFlushed, Bitmap.Members, Bitmap.PaddingClear;
    forall i | i in v.Members()
      ensures Safe(spec, s, i)
    {
      FlushedIsSafe(spec, s, i);
    }
  }

  lemma SyncEndKeepsInv(spec: Spec, s: State, s': State, step: Step)
    requires spec.Valid() && Inv(spec, s) && s.session.Some?
    requires step.SyncEnd? && step.w < |s.session.value.workers| && WorkerStep(spec, s, s', step, step.w)
    ensures Inv(spec, s')
  {
    hide Inv, SessionInv, DiskInv, FinishInv, Calm, Bitmap.Valid, Bitmap.Members, Bitmap.Sized, ChunkFlushed,
      Snapshotted, RecordGood;
    WorkerHas(spec, s, step.w);
    var ses := s.session.value;
    var x := ses.workers[step.w];
    SyncedIsGood(spec, s, x.record);
    SameDiskIsCalm(spec, s, s');
    CalmKeepsDisk(spec, s, s');
    CalmKeepsRecord(spec, s, s', x.record);
    CalmKeepsSnapshot(spec, s, s', ses.bitmap);
    OneWorkerMoves(spec, s, s', step.w, Synced(x.record));
  }

  lemma RenameKeepsInv(spec: Spec, s: State, s': State, step: Step)
    requires spec.Valid() && Inv(spec, s) && s.session.Some?
    requires step.Rename? && step.w < |s.session.value.workers| && WorkerStep(spec, s, s', step, step.w)
    ensures Inv(spec, s')
  {
    hide Inv, SessionInv, FinishInv, Calm, Bitmap.Valid, Bitmap.Members, Bitmap.Sized, EncodeRecord, Safe;
    WorkerHas(spec, s, step.w);
    var ses := s.session.value;
    var x := ses.workers[step.w];
    SameDiskIsCalm(spec, s, s');
    forall v | v in s'.renamed
      ensures RecordGood(spec, s', v)
    {
      if v in s.renamed { CalmKeepsRecord(spec, s, s', v); } else { CalmKeepsRecord(spec, s, s', x.record); }
    }
    assert x.record in s'.renamed;
    RenamedCompleted(spec, s, s');
    OneWorkerMoves(spec, s, s', step.w, Idle);
  }

  lemma RenamedCompleted(spec: Spec, s: State, s': State)
    requires spec.Valid() && DiskInv(spec, s) && s'.cache == s.cache && s'.durable == s.durable
    ensures s.completed ==> forall i: nat :: i < spec.layout.count ==> Safe(spec, s', i)
  {
    hide RecordGood, EncodeRecord, Spec.Holds;
    if s.completed {
      forall i: nat | i < spec.layout.count
        ensures Safe(spec, s', i)
      {
        assert Safe(spec, s, i);
      }
    }
  }

  /** The steps that touch only the worker's own place, the counters and the history. */
  lemma BookkeepingKeepsInv(spec: Spec, s: State, s': State, step: Step, w: nat)
    requires spec.Valid() && Inv(spec, s) && s.session.Some? && w < |s.session.value.workers|
    requires WorkerOf(step) == Some(w) && WorkerStep(spec, s, s', step, w)
    requires !step.WriteSome? && !step.WriteEnd? && !step.SetBit? && !step.SyncBegin? && !step.SyncEnd? && !step.Rename?
    ensures Inv(spec, s')
  {
    hide Inv, SessionInv, DiskInv, FinishInv, Calm, Bitmap.Valid, Bitmap.Members, Bitmap.Sized, ChunkFlushed,
      RecordGood;
    WorkerHas(spec, s, w);
    var ses := s.session.value;
    var x := ses.workers[w];
    SameDiskIsCalm(spec, s, s');
    CalmKeepsDisk(spec, s, s');
    CalmKeepsSnapshot(spec, s, s', ses.bitmap);
    var x' := s'.session.value.workers[w];
    CalmKeepsWorker(spec, s, s', ses.bitmap, ses.bitmap, x);
    OneWorkerMoves(spec, s, s', w, x');
  }

  lemma WorkerStepKeepsInv(spec: Spec, s: State, s': State, step: Step, w: nat)
    requires spec.Valid() && NoCollision(spec, s) && Inv(spec, s) && s.session.Some? && w < |s.session.value.workers|
    requires WorkerOf(step) == Some(w) && WorkerStep(spec, s, s', step, w)
    ensures Inv(spec, s')
  {
    hide Inv, WorkerStep, NoCollision;
    match step
    case WriteSome(_, _) => WriteSomeKeepsInv(spec, s, s', step);
    case WriteEnd(_) => WriteEndKeepsInv(spec, s, s', step);
    case SetBit(_) => SetBitKeepsInv(spec, s, s', step);
    case SyncBegin(_) => SyncBeginKeepsInv(spec, s, s', step);
    case SyncEnd(_) => SyncEndKeepsInv(spec, s, s', step);
    case Rename(_) => RenameKeepsInv(spec, s, s', step);
    case _ => BookkeepingKeepsInv(spec, s, s', step, w);
  }

  // ----- disk steps ------------------------------------------------------------------------------

  lemma RecordIsBacked(spec: Spec, s: State, v: Bitmap)
    requires spec.Valid() && RecordGood(spec, s, v)
    ensures Snapshotted(spec, s.(cache := spec.Reserve(s.cache)), v)
  {
    hide Bitmap.Valid, Bitmap.Members;
  }

  /** The bitmap a session opens with is backed by what is on disk: a loaded record is one that was
      renamed into place, and a rebuilt bitmap was just verified. */
  lemma ChosenIsBacked(spec: Spec, s: State, cache: seq<byte>, step: Step)
    requires spec.Valid() && DiskInv(spec, s) && step.Open? && cache == spec.Reserve(s.cache)
    requires Chosen(spec, cache, s.sidecar, step)
    ensures Snapshotted(spec, s.(cache := cache), step.bitmap)
  {
    hide Bitmap.PaddingClear, EncodeRecord, Load, Matches, Spec.Holds, RecordGood;
    NewIsEmpty(spec.layout.count);
    var loaded := Load(spec.H, s.sidecar, Some(|cache|), spec.key);
    if step.resume && loaded.Some? {
      LoadNeedsSidecar(spec, s.sidecar, |cache|);
      var v :| v in s.renamed && s.sidecar.value == EncodeRecord(spec.H, spec.key, v);
      LoadedIsRecord(spec, s, |cache|, v, loaded.value);
      RecordIsBacked(spec, s, v);
    } else if step.resume && step.preexisting {
      forall i | i in step.bitmap.Members()
        ensures spec.Holds(cache, i)
      {
        MatchHolds(spec, cache, i);
      }
    }
  }

  lemma LoadNeedsSidecar(spec: Spec, sidecar: Option<seq<byte>>, len: nat)
    requires Load(spec.H, sidecar, Some(len), spec.key).Some?
    ensures sidecar.Some?
  {
  }

  lemma MatchHolds(spec: Spec, cache: seq<byte>, i: nat)
    requires spec.Valid() && (spec.layout.fileSize > 0 ==> |cache| == spec.layout.fileSize)
    requires i < spec.layout.count && Matches(spec.H, spec.layout, spec.hashes, cache, i)
    ensures spec.Holds(cache, i)
  {
  }

  /** Loading a renamed record gives back that record's bitmap. */
  lemma LoadedIsRecord(spec: Spec, s: State, len: nat, v: Bitmap, loaded: Bitmap)
    requires spec.Valid() && RecordGood(spec, s, v) && s.sidecar == Some(EncodeRecord(spec.H, spec.key, v))
    requires Load(spec.H, s.sidecar, Some(len), spec.key) == Some(loaded)
    ensures loaded == v && len == spec.layout.fileSize
  {
    hide EncodeRecord, Load, Bitmap.Members, Spec.Holds, Safe;
    LoadAcceptsExactly(spec.H, s.sidecar.value, Some(len), spec.key, loaded);
    LoadAcceptsExactly(spec.H, s.sidecar.value, Some(len), spec.key, v);
  }

  lemma OpenKeepsInv(spec: Spec, s: State, s': State, step: Step)
    requires spec.Valid() && Inv(spec, s) && step.Open? && DiskStep(spec, s, s', step)
    ensures Inv(spec, s')
  {
    hide Bitmap.PaddingClear, EncodeRecord, Chosen, Spec.Holds, RecordGood, ChunkFlushed, Bitmap.Has;
    ChosenIsBacked(spec, s, s'.cache, step);
    ReserveKeepsDisk(spec, s, s');
    var ses := s'.session.value;
    assert Snapshotted(spec, s', ses.bitmap);
    forall k | 0 <= k < |ses.workers|
      ensures WorkerInv(spec, s', ses.bitmap, ses.workers[k])
    {
      assert ses.workers[k] == Idle;
    }
  }

  /** Reserving the length again changes nothing that is vouched for. */
  lemma ReserveKeepsDisk(spec: Spec, s: State, s': State)
    requires spec.Valid() && DiskInv(spec, s) && s'.cache == spec.Reserve(s.cache)
    requires s'.durable == s.durable && s'.renamed == s.renamed && s'.completed == s.completed
      && s'.sidecar == s.sidecar
    ensures DiskInv(spec, s')
  {
    hide RecordGood, EncodeRecord, Safe;
    forall v | v in s'.renamed
      ensures RecordGood(spec, s', v)
    {
      ReserveKeepsRecord(spec, s, s', v);
    }
    forall i: nat | Safe(spec, s, i)
      ensures Safe(spec, s', i)
    {
      ReserveKeepsSafe(spec, s, s', i);
    }
  }

  lemma ReserveKeepsSafe(spec: Spec, s: State, s': State, i: nat)
    requires spec.Valid() && Safe(spec, s, i) && s'.cache == spec.Reserve(s.cache) && s'.durable == s.durable
    ensures Safe(spec, s', i)
  {
  }

  lemma ReserveKeepsRecord(spec: Spec, s: State, s': State, v: Bitmap)
    requires spec.Valid() && RecordGood(spec, s, v) && s'.cache == spec.Reserve(s.cache) && s'.durable == s.durable
    ensures RecordGood(spec, s', v)
  {
    hide Bitmap.Valid, Bitmap.Members, Safe;
    forall i: nat | Safe(spec, s, i)
      ensures Safe(spec, s', i)
    {
      ReserveKeepsSafe(spec, s, s', i);
    }
  }

  lemma PowerLossKeepsInv(spec: Spec, s: State, s': State, step: Step)
    requires spec.Valid() && Inv(spec, s) && step.PowerLoss? && DiskStep(spec, s, s', step)
    ensures Inv(spec, s')
  {
    hide EncodeRecord, SessionInv, RecordGood, Safe;
    forall v | v in s'.renamed
      ensures RecordGood(spec, s', v)
    {
      PowerLossKeepsRecord(spec, s, s', v);
    }
    forall i: nat | Safe(spec, s, i)
      ensures Safe(spec, s', i)
    {
      PowerLossKeepsSafe(spec, s, s', i);
    }
    if step.survivor.Some? { assert step.survivor.value in s'.renamed; }
  }

  lemma PowerLossKeepsSafe(spec: Spec, s: State, s': State, i: nat)
    requires spec.Valid() && Safe(spec, s, i) && s'.cache == s'.durable == s.durable
    ensures Safe(spec, s', i)
  {
  }

  lemma PowerLossKeepsRecord(spec: Spec, s: State, s': State, v: Bitmap)
    requires spec.Valid() && RecordGood(spec, s, v) && s'.cache == s'.durable == s.durable
    ensures RecordGood(spec, s', v)
  {
    hide Bitmap.Valid, Bitmap.Members, Safe;
    forall i: nat | Safe(spec, s, i)
      ensures Safe(spec, s', i)
    {
      PowerLossKeepsSafe(spec, s, s', i);
    }
  }

  lemma KillKeepsInv(spec: Spec, s: State, s': State, step: Step)
    requires spec.Valid() && Inv(spec, s) && step.Kill? && DiskStep(spec, s, s', step)
    ensures Inv(spec, s')
  {
    hide SessionInv, Calm, DiskInv;
    SameDiskIsCalm(spec, s, s');
    CalmKeepsDisk(spec, s, s');
  }

  /** Bytes written back leave the set a sync is waiting for. */
  lemma FlushShrinksDirty(spec: Spec, s: State, s': State, at: set<nat>, i: nat, dirty: set<nat>)
    requires spec.Valid() && Calm(spec, s, s') && spec.Holds(s.cache, i) && ChunkFlushed(spec, s, i, dirty)
    requires forall p :: p in at ==> ByteOnDisk(s', p)
    ensures ChunkFlushed(spec, s', i, dirty - at)
  {
  }

  lemma FlushKeepsWorker(spec: Spec, s: State, s': State, at: set<nat>, bitmap: Bitmap, x: Worker)
    requires spec.Valid() && Calm(spec, s, s') && bitmap.Sized() && WorkerInv(spec, s, bitmap, x)
    requires forall p :: p in at ==> ByteOnDisk(s', p)
    ensures WorkerInv(spec, s', bitmap, if x.Syncing? then x.(dirty := x.dirty - at) else x)
  {
    hide ChunkFlushed, Calm, ByteOnDisk, Bitmap.Members, RecordGood, Bitmap.PaddingClear;
    CalmKeepsWorker(spec, s, s', bitmap, bitmap, x);
    if x.Syncing? {
      forall i | i in x.record.Members()
        ensures ChunkFlushed(spec, s', i, x.dirty - at)
      {
        FlushShrinksDirty(spec, s, s', at, i, x.dirty);
      }
    }
  }

  lemma FlushKeepsFinish(spec: Spec, s: State, s': State, at: set<nat>, finish: Finish)
    requires spec.Valid() && Calm(spec, s, s') && FinishInv(spec, s, finish) && s'.completed == s.completed
    requires forall p :: p in at ==> ByteOnDisk(s', p)
    ensures FinishInv(spec, s', if finish.Flushing? then Flushing(finish.dirty - at) else finish)
  {
    hide ChunkFlushed, ByteOnDisk;
    CalmKeepsFinish(spec, s, s', finish);
    if finish.Flushing? {
      forall i: nat | i < spec.layout.count
        ensures ChunkFlushed(spec, s', i, finish.dirty - at)
      {
        FlushShrinksDirty(spec, s, s', at, i, finish.dirty);
      }
    }
  }

  lemma FlushKeepsInv(spec: Spec, s: State, s': State, step: Step)
    requires spec.Valid() && NoCollision(spec, s) && Inv(spec, s) && step.Flush? && DiskStep(spec, s, s', step)
    ensures Inv(spec, s')
  {
    hide WorkerInv, DiskInv, FinishInv, Safe, Bitmap.Members, Spec.Holds, Calm, Bitmap.PaddingClear, ImagesApart,
      WriteApart;
    FlushIsCalm(spec, s, s');
    CalmKeepsDisk(spec, s, s');
    if s.session.Some? {
      var ses, ses' := s.session.value, s'.session.value;
      CalmKeepsSnapshot(spec, s, s', ses.bitmap);
      FlushKeepsFinish(spec, s, s', step.at, ses.finish);
      forall k | 0 <= k < |ses.workers|
        ensures WorkerInv(spec, s', ses.bitmap, ses'.workers[k])
      {
        FlushKeepsWorker(spec, s, s', step.at, ses.bitmap, ses.workers[k]);
      }
    }
  }

  lemma DiskStepKeepsInv(spec: Spec, s: State, s': State, step: Step)
    requires spec.Valid() && NoCollision(spec, s) && Inv(spec, s) && DiskStep(spec, s, s', step)
    ensures Inv(spec, s')
  {
    hide Inv, Calm, Chosen, NoCollision;
    match step
    case Open(_, _, _, _, _) => OpenKeepsInv(spec, s, s', step);
    case Flush(_) => FlushKeepsInv(spec, s, s', step);
    case FlushLength =>
      LengthIsCalm(spec, s, s');
      StayKeepsInv(spec, s, s');
    case Kill => KillKeepsInv(spec, s, s', step);
    case PowerLoss(_) => PowerLossKeepsInv(spec, s, s', step);
  }

  // ----- the completeness phase -----------------------------------------------------------------

  lemma FinishBeginKeepsInv(spec: Spec, s: State, s': State)
    requires spec.Valid() && Inv(spec, s) && s.session.Some? && FinishStep(s, s', FinishBegin)
    ensures Inv(spec, s')
  {
    hide DiskInv, WorkerInv, Safe, Calm, ByteOnDisk;
    var ses := s.session.value;
    SameDiskIsCalm(spec, s, s');
    CalmKeepsDisk(spec, s, s');
    CalmKeepsSnapshot(spec, s, s', ses.bitmap);
    CompleteIffAllSet(ses.bitmap);
    forall k | 0 <= k < |ses.workers|
      ensures WorkerInv(spec, s', ses.bitmap, ses.workers[k])
    {
      CalmKeepsWorker(spec, s, s', ses.bitmap, ses.bitmap, ses.workers[k]);
    }
  }

  lemma FinishEndKeepsInv(spec: Spec, s: State, s': State)
    requires spec.Valid() && Inv(spec, s) && s.session.Some? && FinishStep(s, s', FinishEnd)
    ensures Inv(spec, s')
  {
    hide WorkerInv, ChunkFlushed, Calm, RecordGood, EncodeRecord, Spec.Holds, Bitmap.Members, Bitmap.PaddingClear;
    var ses := s.session.value;
    SameDiskIsCalm(spec, s, s');
    CalmKeepsSnapshot(spec, s, s', ses.bitmap);
    forall i: nat | i < spec.layout.count
      ensures Safe(spec, s', i)
    {
      FlushedIsSafe(spec, s, i);
    }
    forall v | v in s'.renamed
      ensures RecordGood(spec, s', v)
    {
      CalmKeepsRecord(spec, s, s', v);
    }
    forall k | 0 <= k < |ses.workers|
      ensures WorkerInv(spec, s', ses.bitmap, ses.workers[k])
    {
      CalmKeepsWorker(spec, s, s', ses.bitmap, ses.bitmap, ses.workers[k]);
    }
  }

  lemma DiscardKeepsInv(spec: Spec, s: State, s': State)
    requires spec.Valid() && Inv(spec, s) && s.session.Some? && FinishStep(s, s', Discard)
    ensures Inv(spec, s')
  {
    hide WorkerInv, ChunkFlushed, Calm, DiskInv, FinishInv, Spec.Holds, Bitmap.Members, Bitmap.PaddingClear;
    var ses := s.session.value;
    SameDiskIsCalm(spec, s, s');
    CalmKeepsDisk(spec, s, s');
    CalmKeepsSnapshot(spec, s, s', ses.bitmap);
    CalmKeepsFinish(spec, s, s', ses.finish);
    forall k | 0 <= k < |ses.workers|
      ensures WorkerInv(spec, s', ses.bitmap, ses.workers[k])
    {
      CalmKeepsWorker(spec, s, s', ses.bitmap, ses.bitmap, ses.workers[k]);
    }
  }

  // ----- every run --------------------------------------------------------------------------------

  /** Every step of every session, the kernel and the environment keeps the invariant. */
  lemma StepKeepsInv(spec: Spec, s: State, s': State, step: Step)
    requires spec.Valid() && NoCollision(spec, s) && Inv(spec, s) && Next(spec, s, s', step)
    ensures Inv(spec, s')
  {
    hide Inv, DiskStep, WorkerStep, NoCollision;
    if DiskStep(spec, s, s', step) {
      DiskStepKeepsInv(spec, s, s', step);
    } else if s.session.Some? && FinishStep(s, s', step) {
      match step
      case FinishBegin => FinishBeginKeepsInv(spec, s, s');
      case FinishEnd => FinishEndKeepsInv(spec, s, s');
      case Discard => DiscardKeepsInv(spec, s, s');
    } else {
      WorkerStepKeepsInv(spec, s, s', step, WorkerOf(step).value);
    }
  }

  lemma {:induction false} RunKeepsInv(spec: Spec, states: seq<State>, steps: seq<Step>, k: nat)
    requires spec.Valid() && IsRun(spec, states, steps) && k < |states| && NoCollisions(spec, states, k)
    ensures Inv(spec, states[k])
  {
    hide Next, NoCollision;
    if k > 0 {
      RunKeepsInv(spec, states, steps, k - 1);
      assert Next(spec, states[k - 1], states[k], steps[k - 1]);
      StepKeepsInv(spec, states[k - 1], states[k], steps[k - 1]);
    }
  }

  lemma DiskHistoryGrows(spec: Spec, s: State, s': State, step: Step)
    requires spec.Valid() && DiskStep(spec, s, s', step)
    ensures s'.renamed == s.renamed && s'.completed == s.completed
  {
    hide Chosen, EncodeRecord, Bitmap.Members, Overlay, Resize, FlushedSession;
  }

  lemma WorkerHistoryGrows(spec: Spec, s: State, s': State, step: Step, w: nat)
    requires spec.Valid() && s.session.Some? && w < |s.session.value.workers| && WorkerStep(spec, s, s', step, w)
    ensures s.renamed <= s'.renamed && s'.completed == s.completed
  {
    hide EncodeRecord, Bitmap.Members, Overlay, Placed, Put, WithBit;
  }

  lemma HistoryGrows(spec: Spec, s: State, s': State, step: Step)
    requires spec.Valid() && Next(spec, s, s', step)
    ensures s.renamed <= s'.renamed && (s.completed ==> s'.completed)
  {
    hide DiskStep, WorkerStep;
    if DiskStep(spec, s, s', step) {
      DiskHistoryGrows(spec, s, s', step);
    } else if !(s.session.Some? && FinishStep(s, s', step)) {
      WorkerHistoryGrows(spec, s, s', step, WorkerOf(step).value);
    }
  }

  lemma {:induction false} HistoryOfRun(spec: Spec, states: seq<State>, steps: seq<Step>, j: nat, k: nat)
    requires spec.Valid() && IsRun(spec, states, steps) && j <= k < |states|
    ensures states[j].renamed <= states[k].renamed && (states[j].completed ==> states[k].completed)
    decreases k
  {
    hide Next;
    if j < k {
      HistoryOfRun(spec, states, steps, j, k - 1);
      assert Next(spec, states[k - 1], states[k], steps[k - 1]);
      HistoryGrows(spec, states[k - 1], states[k], steps[k - 1]);
    }
  }

  /** Crash-safe resume. In every run, if a record holding bit `i` has been renamed into place by
      moment `j`, then at every later moment `k`, whatever was written and however often the machine
      crashed in between, the bytes a power loss would leave for chunk `i` have the committed hash. */
  lemma CrashSafeResume(spec: Spec, states: seq<State>, steps: seq<Step>, j: nat, k: nat, v: Bitmap, i: nat)
    requires spec.Valid() && IsRun(spec, states, steps) && j <= k < |states| && NoCollisions(spec, states, k)
    requires v in states[j].renamed && v.Sized() && i in v.Members()
    ensures spec.Holds(states[k].durable, i) && spec.Holds(states[k].cache, i)
  {
    hide Next, IsRun, NoCollisions, Bitmap.Members, EncodeRecord;
    RunKeepsInv(spec, states, steps, k);
    HistoryOfRun(spec, states, steps, j, k);
    assert RecordGood(spec, states[k], v);
  }

  /** The fast path never claims more than the slow one: at every moment of every run, what `load`
      would return is a subset of what re-verifying the file would find. */
  lemma FastPathWithinSlowPath(spec: Spec, states: seq<State>, steps: seq<Step>, k: nat, loaded: Bitmap, i: nat)
    requires spec.Valid() && IsRun(spec, states, steps) && k < |states| && NoCollisions(spec, states, k)
    requires Load(spec.H, states[k].sidecar, Some(|states[k].cache|), spec.key) == Some(loaded)
    requires loaded.Sized() && i in loaded.Members()
    ensures i < spec.layout.count && Matches(spec.H, spec.layout, spec.hashes, states[k].cache, i)
  {
    hide Next, IsRun, NoCollisions, Bitmap.Members, EncodeRecord, Load;
    var s := states[k];
    RunKeepsInv(spec, states, steps, k);
    LoadNeedsSidecar(spec, s.sidecar, |s.cache|);
    var v :| v in s.renamed && s.sidecar.value == EncodeRecord(spec.H, spec.key, v);
    LoadedIsRecord(spec, s, |s.cache|, v, loaded);
    assert Safe(spec, s, i);
  }

  // ----- why every session must have the same key ------------------------------------------------

  /** A session for a different file at the same path overwrites chunks without first discarding the
      old record: from any idle state there is a three-step session after which the record still in
      place claims a chunk the file no longer holds. */
  lemma OtherKeyOverwrites(a: Spec, b: Spec, s: State, bytes: seq<byte>) returns (s1: State, s2: State, s3: State)
    requires a.Valid() && b.Valid() && a.layout == b.layout && a.H == b.H
    requires s.session.None? && |s.cache| == a.layout.fileSize
    requires b.Verified(0, bytes) && !a.Verified(0, bytes)
    ensures Next(b, s, s1, Open(false, true, {}, NewBitmap(b.layout.count), 1))
    ensures Next(b, s1, s2, Receive(0, 0, bytes))
    ensures Next(b, s2, s3, WriteEnd(0))
    ensures s3.sidecar == s.sidecar && s3.renamed == s.renamed && !a.Holds(s3.cache, 0)
  {
    hide Bitmap.Members, Next, Placed;
    s1, s2, s3 := FirstWrite(b, s, bytes);
    PlacedSlice(b.layout, s.cache, 0, bytes, 0);
  }

  /** A session that starts from nothing and writes one chunk. */
  lemma FirstWrite(spec: Spec, s: State, bytes: seq<byte>) returns (s1: State, s2: State, s3: State)
    requires spec.Valid() && s.session.None? && |s.cache| == spec.layout.fileSize && spec.Verified(0, bytes)
    ensures Next(spec, s, s1, Open(false, true, {}, NewBitmap(spec.layout.count), 1))
    ensures Next(spec, s1, s2, Receive(0, 0, bytes))
    ensures Next(spec, s2, s3, WriteEnd(0))
    ensures
      var v := NewBitmap(spec.layout.count);
      s3 == s.(cache := Placed(spec.layout, s.cache, 0, bytes),
               session := Some(Session(v, 0, [Written(0)], NotYet, v.Members(), v.Members())))
  {
    hide Next, Bitmap.Members, Placed, Spec.Verified;
    VerifiedFits(spec, 0, bytes);
    var v := NewBitmap(spec.layout.count);
    var ses := Session(v, 0, [Idle], NotYet, v.Members(), v.Members());
    s1 := s.(session := Some(ses));
    OpenIsNext(spec, s, s1);
    s2 := s.(session := Some(ses.(workers := [Writing(0, bytes)])));
    ReceiveIsNext(spec, s1, s2, bytes);
    s3 := s.(cache := Placed(spec.layout, s.cache, 0, bytes), session := Some(ses.(workers := [Written(0)])));
    WriteIsNext(spec, s2, s3, bytes);
  }

  // ----- what a bit in memory means -----------------------------------------------------------------

  /** A set bit in memory does not mean that the chunk is durable: from any idle state whose durable image
      lacks chunk 0, an ordinary session sets the chunk's bit before any byte of it has reached the disk. So a
      snapshot taken after the sync, instead of before, could record a chunk that a power loss destroys. */
  lemma BitBeforeSync(spec: Spec, s: State, bytes: seq<byte>) returns (s1: State, s2: State, s3: State, s4: State)
    requires spec.Valid() && s.session.None? && |s.cache| == spec.layout.fileSize
    requires spec.Verified(0, bytes) && !spec.Holds(s.durable, 0)
    ensures Next(spec, s, s1, Open(false, true, {}, NewBitmap(spec.layout.count), 1))
    ensures Next(spec, s1, s2, Receive(0, 0, bytes))
    ensures Next(spec, s2, s3, WriteEnd(0))
    ensures Next(spec, s3, s4, SetBit(0))
    ensures s4.session.Some? && s4.session.value.bitmap.Sized() && 0 in s4.session.value.bitmap.Members()
    ensures spec.Holds(s4.cache, 0) && !spec.Holds(s4.durable, 0)
  {
    hide Bitmap.Members, Next, Placed, WithBit, Bitmap.PaddingClear;
    s1, s2, s3 := FirstWrite(spec, s, bytes);
    var ses := s3.session.value;
    NewIsEmpty(spec.layout.count);
    WithBitAddsMember(ses.bitmap, 0);
    s4 := s3.(session := Some(ses.(workers := [Marked(0)], bitmap := WithBit(ses.bitmap, 0))));
    MarkIsNext(spec, s3, s4);
    PlacedHolds(spec, s.cache, 0, bytes);
  }

  /** The length check in `load` cannot see a truncation that happened between sessions: the staging
      file has its full length again before `load` looks at it, so the record is believed, while on the
      file as it was found it would have been refused. */
  lemma TruncationGoesUnseen(spec: Spec, found: seq<byte>, v: Bitmap)
    requires spec.Valid() && spec.layout.fileSize > 0 && v.Valid() && |found| != spec.layout.fileSize
    ensures
      var record := Some(EncodeRecord(spec.H, spec.key, v));
      && Load(spec.H, record, Some(|spec.Reserve(found)|), spec.key) == Some(v)
      && Load(spec.H, record, Some(|found|), spec.key) == None
  {
    hide EncodeRecord, Load, Bitmap.Valid;
    var raw := EncodeRecord(spec.H, spec.key, v);
    LoadAcceptsExactly(spec.H, raw, Some(|spec.Reserve(found)|), spec.key, v);
    var late := Load(spec.H, Some(raw), Some(|found|), spec.key);
    if late.Some? { LoadAcceptsExactly(spec.H, raw, Some(|found|), spec.key, late.value); }
  }
}
