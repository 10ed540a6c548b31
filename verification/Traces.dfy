// Runs of the receiver machine, step by step: a session with one drain worker that takes
// chunk 0 as often as need be, checkpoints it, or finishes the file. They show that the
// states other theorems speak about are reached.

module Traces {
  import opened Base
  import opened Layout
  import opened Bitmaps
  import opened Record
  import opened Receiver

  /** A run with its steps and its last state. */
  datatype Trace = Trace(states: seq<State>, steps: seq<Step>, last: State) {

    /** A run of the machine in which nothing crashes. */
    ghost predicate Of(spec: Spec)
      requires spec.Valid()
    {
      && IsRun(spec, states, steps) && last == states[|steps|]
      && forall k :: 0 <= k < |steps| ==> !steps[k].Kill? && !steps[k].PowerLoss?
    }
  }

  lemma Shape(spec: Spec, t: Trace)
    requires spec.Valid() && t.Of(spec)
    ensures |t.states| == |t.steps| + 1 && t.last == t.states[|t.steps|]
  {
    hide Next;
  }

  lemma Begun(spec: Spec, s: State) returns (t: Trace)
    requires spec.Valid() && Init(s)
    ensures t.Of(spec) && t.last == s
  {
    t := Trace([s], [], s);
  }

  /** A run goes on by any step enabled in its last state. */
  lemma Extended(spec: Spec, t: Trace, s': State, step: Step) returns (t': Trace)
    requires spec.Valid() && t.Of(spec) && Next(spec, t.last, s', step) && !step.Kill? && !step.PowerLoss?
    ensures t'.Of(spec) && t'.last == s'
  {
    hide Next;
    t' := Trace(t.states + [s'], t.steps + [step], s');
    forall i | 0 <= i < |t'.steps|
      ensures Next(spec, t'.states[i], t'.states[i + 1], t'.steps[i])
    {
      if i < |t.steps| { assert t'.states[i] == t.states[i] && t'.states[i + 1] == t.states[i + 1]; }
    }
  }

  // ----- single steps of a session with one worker -----------------------------------------

  /** `s` with the given session. */
  function In(s: State, ses: Session): State { s.(session := Some(ses)) }

  lemma VerifiedFits(spec: Spec, j: nat, bytes: seq<byte>)
    requires spec.Valid() && spec.Verified(j, bytes)
    ensures j < spec.layout.count && |bytes| == spec.layout.Len(j)
  {
  }

  lemma FreshIsChosen(spec: Spec, cache: seq<byte>, sidecar: Option<seq<byte>>)
    requires spec.Valid()
    ensures Chosen(spec, cache, sidecar, Open(false, true, {}, NewBitmap(spec.layout.count), 1))
  {
  }

  lemma OpenIsNext(spec: Spec, s: State, s': State)
    requires spec.Valid() && s.session.None? && |s.cache| == spec.layout.fileSize
    requires
      var v := NewBitmap(spec.layout.count);
      s' == In(s, Session(v, 0, [Idle], NotYet, v.Members(), v.Members()))
    ensures Next(spec, s, s', Open(false, true, {}, NewBitmap(spec.layout.count), 1))
  {
    hide Chosen, Bitmap.Members;
    FreshIsChosen(spec, s.cache, s.sidecar);
    assert seq(1, _ => Idle) == [Idle];
  }

  /** A step of the only worker. */
  lemma SoloIsNext(spec: Spec, s: State, s': State, step: Step)
    requires spec.Valid() && s.session.Some? && |s.session.value.workers| == 1
    requires WorkerOf(step) == Some(0) && WorkerStep(spec, s, s', step, 0)
    ensures Next(spec, s, s', step)
  {
    hide DiskStep, WorkerStep;
  }

  lemma ReceiveIsNext(spec: Spec, s: State, s': State, bytes: seq<byte>)
    requires spec.Valid() && s.session.Some? && s.session.value.workers == [Idle] && s.session.value.finish.NotYet?
    requires spec.Verified(0, bytes) && s' == In(s, s.session.value.(workers := [Writing(0, bytes)]))
    ensures Next(spec, s, s', Receive(0, 0, bytes))
  {
    hide Next, Spec.Verified;
    assert [Idle][0 := Writing(0, bytes)] == [Writing(0, bytes)];
    SoloIsNext(spec, s, s', Receive(0, 0, bytes));
  }

  lemma WriteIsNext(spec: Spec, s: State, s': State, bytes: seq<byte>)
    requires spec.Valid() && s.session.Some? && s.session.value.workers == [Writing(0, bytes)]
    requires |s.cache| == spec.layout.fileSize && 0 < spec.layout.count && |bytes| == spec.layout.Len(0)
    requires s' == In(s, s.session.value.(workers := [Written(0)])).(cache := Placed(spec.layout, s.cache, 0, bytes))
    ensures Next(spec, s, s', WriteEnd(0))
  {
    hide Next, Placed, ChunkLayout.Len;
    assert [Writing(0, bytes)][0 := Written(0)] == [Written(0)];
    SoloIsNext(spec, s, s', WriteEnd(0));
  }

  lemma MarkIsNext(spec: Spec, s: State, s': State)
    requires spec.Valid() && s.session.Some? && s.session.value.workers == [Written(0)]
    requires s.session.value.bitmap.Valid() && 0 < s.session.value.bitmap.count
    requires s' == In(s, s.session.value.(workers := [Marked(0)], bitmap := WithBit(s.session.value.bitmap, 0)))
    ensures Next(spec, s, s', SetBit(0))
  {
    hide Next, WithBit, Bitmap.Valid;
    assert [Written(0)][0 := Marked(0)] == [Marked(0)];
    SoloIsNext(spec, s, s', SetBit(0));
  }

  /** The counter after a chunk of `n` bytes, and where that leaves the worker. */
  function Counted(spec: Spec, since: nat, n: nat): (nat, Worker) {
    if spec.threshold == 0 then (since, Idle)
    else (since + n, if since + n < spec.threshold then Idle else Due)
  }

  lemma CountIsNext(spec: Spec, s: State, s': State)
    requires spec.Valid() && s.session.Some? && s.session.value.workers == [Marked(0)] && 0 < spec.layout.count
    requires
      var (since, x) := Counted(spec, s.session.value.since, spec.layout.Len(0));
      s' == In(s, s.session.value.(workers := [x], since := since))
    ensures Next(spec, s, s', Count(0))
  {
    hide Next, ChunkLayout.Len;
    assert [Marked(0)][0 := Due] == [Due] && [Marked(0)][0 := Idle] == [Idle];
    SoloIsNext(spec, s, s', Count(0));
  }

  lemma LoseRaceIsNext(spec: Spec, s: State, s': State)
    requires spec.Valid() && s.session.Some? && s.session.value.workers == [Due]
    requires s' == In(s, s.session.value.(workers := [Idle]))
    ensures Next(spec, s, s', LoseRace(0))
  {
    hide Next;
    assert [Due][0 := Idle] == [Idle];
    SoloIsNext(spec, s, s', LoseRace(0));
  }

  lemma LockIsNext(spec: Spec, s: State, s': State)
    requires spec.Valid() && s.session.Some? && s.session.value.workers == [Due]
    requires s' == In(s, s.session.value.(workers := [Locked]))
    ensures Next(spec, s, s', Lock(0))
  {
    hide Next;
    assert [Due][0 := Locked] == [Locked];
    SoloIsNext(spec, s, s', Lock(0));
  }

  lemma ResetIsNext(spec: Spec, s: State, s': State)
    requires spec.Valid() && s.session.Some? && s.session.value.workers == [Locked] && s.session.value.bitmap.Sized()
    requires s' == In(s, s.session.value.(workers := [Cleared], since := 0, base := s.session.value.bitmap.Members()))
    ensures Next(spec, s, s', Reset(0))
  {
    hide Next, Bitmap.Members;
    assert [Locked][0 := Cleared] == [Cleared];
    SoloIsNext(spec, s, s', Reset(0));
  }

  lemma SnapshotIsNext(spec: Spec, s: State, s': State)
    requires spec.Valid() && s.session.Some? && s.session.value.workers == [Cleared]
    requires s.session.value.bitmap.Sized() && s.session.value.bitmap.setCount > 0
    requires
      var v := s.session.value.bitmap;
      s' == In(s, s.session.value.(workers := [Snapped(v)], latest := v.Members()))
    ensures Next(spec, s, s', Snapshot(0))
  {
    hide Next, Bitmap.Members;
    assert [Cleared][0 := Snapped(s.session.value.bitmap)] == [Snapped(s.session.value.bitmap)];
    SoloIsNext(spec, s, s', Snapshot(0));
  }

  lemma SyncBeginIsNext(spec: Spec, s: State, s': State, v: Bitmap)
    requires spec.Valid() && s.session.Some? && s.session.value.workers == [Snapped(v)]
    requires s' == In(s, s.session.value.(workers := [Syncing(v, Positions(|s.cache|))]))
    ensures Next(spec, s, s', SyncBegin(0))
  {
    hide Next;
    assert [Snapped(v)][0 := Syncing(v, Positions(|s.cache|))] == [Syncing(v, Positions(|s.cache|))];
    SoloIsNext(spec, s, s', SyncBegin(0));
  }

  lemma SyncEndIsNext(spec: Spec, s: State, s': State, v: Bitmap)
    requires spec.Valid() && s.session.Some? && s.session.value.workers == [Syncing(v, {})] && |s.durable| == |s.cache|
    requires s' == In(s, s.session.value.(workers := [Synced(v)]))
    ensures Next(spec, s, s', SyncEnd(0))
  {
    hide Next;
    assert [Syncing(v, {})][0 := Synced(v)] == [Synced(v)];
    SoloIsNext(spec, s, s', SyncEnd(0));
  }

  lemma StoreIsNext(spec: Spec, s: State, s': State, v: Bitmap)
    requires spec.Valid() && s.session.Some? && s.session.value.workers == [Synced(v)]
    requires s' == In(s, s.session.value.(workers := [Stored(v)]))
    ensures Next(spec, s, s', StoreTmp(0))
  {
    hide Next;
    assert [Synced(v)][0 := Stored(v)] == [Stored(v)];
    SoloIsNext(spec, s, s', StoreTmp(0));
  }

  lemma RenameIsNext(spec: Spec, s: State, s': State, v: Bitmap)
    requires spec.Valid() && s.session.Some? && s.session.value.workers == [Stored(v)]
    requires
      s' == In(s, s.session.value.(workers := [Idle])).(sidecar := Some(EncodeRecord(spec.H, spec.key, v)),
                                                       renamed := s.renamed + {v})
    ensures Next(spec, s, s', Rename(0))
  {
    hide Next, EncodeRecord;
    assert [Stored(v)][0 := Idle] == [Idle];
    SoloIsNext(spec, s, s', Rename(0));
  }

  // ----- write-back --------------------------------------------------------------------------

  lemma LengthIsNext(spec: Spec, s: State, s': State)
    requires spec.Valid() && s' == s.(durable := Resize(s.durable, |s.cache|))
    ensures Next(spec, s, s', FlushLength)
  {
    hide Resize;
  }

  /** The kernel writes everything back. */
  lemma FlushIsNext(spec: Spec, s: State, s': State)
    requires spec.Valid() && s.session.Some? && |s.durable| == |s.cache|
    requires s' == s.(durable := s.cache, session := Some(FlushedSession(s.session.value, Positions(|s.cache|))))
    ensures Next(spec, s, s', Flush(Positions(|s.cache|)))
  {
    hide FlushedSession;
    assert Overlay(s.durable, s.cache, Positions(|s.cache|)) == s.cache;
  }

  /** A run may always go on by bringing the disk up to date. */
  lemma WrittenBack(spec: Spec, t: Trace) returns (t': Trace)
    requires spec.Valid() && t.Of(spec) && t.last.session.Some?
    ensures t'.Of(spec)
    ensures
      var s := t.last;
      t'.last == s.(durable := s.cache, session := Some(FlushedSession(s.session.value, Positions(|s.cache|))))
  {
    hide Next, Trace.Of, FlushedSession;
    var s := t.last;
    var s1 := s.(durable := Resize(s.durable, |s.cache|));
    LengthIsNext(spec, s, s1);
    t' := Extended(spec, t, s1, FlushLength);
    var s2 := s.(durable := s.cache, session := Some(FlushedSession(s.session.value, Positions(|s.cache|))));
    FlushIsNext(spec, s1, s2);
    t' := Extended(spec, t', s2, Flush(Positions(|s.cache|)));
  }

  lemma SyncFlushed(ses: Session, v: Bitmap, n: nat)
    requires ses.workers == [Syncing(v, Positions(n))] && !ses.finish.Flushing?
    ensures FlushedSession(ses, Positions(n)) == ses.(workers := [Syncing(v, {})])
  {
    assert Positions(n) - Positions(n) == {};
    assert Flushed(ses.workers, Positions(n)) == [Syncing(v, {})];
  }

  lemma FinishFlushed(ses: Session, n: nat)
    requires ses.workers == [Idle] && ses.finish == Flushing(Positions(n))
    ensures FlushedSession(ses, Positions(n)) == ses.(finish := Flushing({}))
  {
    assert Positions(n) - Positions(n) == {};
    assert Flushed(ses.workers, Positions(n)) == [Idle];
  }

  // ----- chunk 0 arrives ------------------------------------------------------------------------

  /** Chunk 0 is written and marked, in a session that started from nothing; the one worker is at `x`. */
  ghost predicate Holding(spec: Spec, s: State, since: nat, x: Worker)
    requires spec.Valid()
  {
    && s.session.Some? && |s.cache| == spec.layout.fileSize && spec.Holds(s.cache, 0)
    && var v := s.session.value.bitmap;
       && v.Valid() && v.count == spec.layout.count && v.Members() == {0}
       && s.session.value == Session(v, since, [x], NotYet, {}, {})
  }

  lemma PlacedHolds(spec: Spec, c: seq<byte>, j: nat, bytes: seq<byte>)
    requires spec.Valid() && spec.Verified(j, bytes) && |c| == spec.layout.fileSize
    ensures spec.Holds(Placed(spec.layout, c, j, bytes), j)
  {
    PlacedSlice(spec.layout, c, j, bytes, j);
  }

  /** The worker takes chunk 0 from the stream, writes it and marks it. */
  lemma Taken(spec: Spec, t: Trace, bytes: seq<byte>) returns (t': Trace)
    requires spec.Valid() && spec.Verified(0, bytes) && t.Of(spec)
    requires t.last.session.Some? && |t.last.cache| == spec.layout.fileSize
    requires
      var ses := t.last.session.value;
      && ses.bitmap.Valid() && ses.bitmap.count == spec.layout.count && ses.bitmap.Members() <= {0}
      && ses == Session(ses.bitmap, ses.since, [Idle], NotYet, {}, {})
    ensures t'.Of(spec) && Holding(spec, t'.last, t.last.session.value.since, Marked(0))
  {
    hide Next, Trace.Of, Bitmap.Members, WithBit, Bitmap.PaddingClear, Placed, Spec.Verified, Spec.Holds;
    VerifiedFits(spec, 0, bytes);
    var s, ses := t.last, t.last.session.value;
    var s1 := In(s, ses.(workers := [Writing(0, bytes)]));
    ReceiveIsNext(spec, s, s1, bytes);
    t' := Extended(spec, t, s1, Receive(0, 0, bytes));
    var s2 := In(s, ses.(workers := [Written(0)])).(cache := Placed(spec.layout, s.cache, 0, bytes));
    WriteIsNext(spec, s1, s2, bytes);
    t' := Extended(spec, t', s2, WriteEnd(0));
    PlacedHolds(spec, s.cache, 0, bytes);
    WithBitAddsMember(ses.bitmap, 0);
    var s3 := In(s2, ses.(workers := [Marked(0)], bitmap := WithBit(ses.bitmap, 0)));
    MarkIsNext(spec, s2, s3);
    t' := Extended(spec, t', s3, SetBit(0));
  }

  /** From any first state: the session opens and chunk 0 is taken once. */
  lemma FirstTaken(spec: Spec, s: State, bytes: seq<byte>) returns (t: Trace)
    requires spec.Valid() && Init(s) && |s.cache| == spec.layout.fileSize && spec.Verified(0, bytes)
    ensures t.Of(spec) && Holding(spec, t.last, 0, Marked(0))
  {
    hide Next, Trace.Of, Bitmap.Members, Bitmap.PaddingClear, Spec.Verified, Holding;
    t := Begun(spec, s);
    var v := NewBitmap(spec.layout.count);
    NewIsEmpty(spec.layout.count);
    var s1 := In(s, Session(v, 0, [Idle], NotYet, v.Members(), v.Members()));
    OpenIsNext(spec, s, s1);
    t := Extended(spec, t, s1, Open(false, true, {}, NewBitmap(spec.layout.count), 1));
    t := Taken(spec, t, bytes);
  }

  /** The counter moves on; the worker is idle again or owes a checkpoint. */
  lemma CountedOn(spec: Spec, t: Trace, since: nat) returns (t': Trace)
    requires spec.Valid() && t.Of(spec) && Holding(spec, t.last, since, Marked(0)) && 0 < spec.layout.count
    ensures t'.Of(spec)
    ensures var (since', x) := Counted(spec, since, spec.layout.Len(0)); Holding(spec, t'.last, since', x)
  {
    hide Next, Trace.Of, Bitmap.Members, Bitmap.PaddingClear, Spec.Holds, ChunkLayout.Len;
    var s := t.last;
    var (since', x) := Counted(spec, since, spec.layout.Len(0));
    var s' := In(s, s.session.value.(workers := [x], since := since'));
    CountIsNext(spec, s, s');
    t' := Extended(spec, t, s', Count(0));
  }

  /** However high the threshold, a peer that repeats chunk 0 brings the worker to a checkpoint. */
  lemma UntilDue(spec: Spec, t: Trace, bytes: seq<byte>, since: nat) returns (t': Trace, since': nat)
    requires spec.Valid() && spec.Verified(0, bytes) && spec.threshold > 0 && t.Of(spec)
    requires Holding(spec, t.last, since, Marked(0))
    ensures t'.Of(spec) && Holding(spec, t'.last, since', Due)
    decreases spec.threshold - since
  {
    hide Next, Trace.Of, Bitmap.Members, Bitmap.PaddingClear, Spec.Holds, Spec.Verified, ChunkLayout.Start;
    VerifiedFits(spec, 0, bytes);
    var n := spec.layout.Len(0);
    t' := CountedOn(spec, t, since);
    since' := since + n;
    if since' < spec.threshold {
      t' := Taken(spec, t', bytes);
      t', since' := UntilDue(spec, t', bytes, since');
    }
  }

  // ----- a checkpoint --------------------------------------------------------------------------

  /** The worker takes the lock and resets the counter; the snapshot is still to come. */
  lemma UntilReset(spec: Spec, s: State, bytes: seq<byte>) returns (t: Trace)
    requires spec.Valid() && Init(s) && |s.cache| == spec.layout.fileSize && spec.Verified(0, bytes)
    requires spec.threshold > 0
    ensures t.Of(spec) && t.last.session.Some? && |t.last.cache| == spec.layout.fileSize
    ensures
      var ses := t.last.session.value;
      && ses.bitmap.Valid() && ses.bitmap.count == spec.layout.count && ses.bitmap.Members() == {0}
      && ses == Session(ses.bitmap, 0, [Cleared], NotYet, {0}, {})
  {
    hide Next, Trace.Of, Bitmap.Members, Bitmap.PaddingClear, Spec.Verified, Spec.Holds;
    var since;
    t := FirstTaken(spec, s, bytes);
    t, since := UntilDue(spec, t, bytes, 0);
    var s0, ses := t.last, t.last.session.value;
    var s1 := In(s0, ses.(workers := [Locked]));
    LockIsNext(spec, s0, s1);
    t := Extended(spec, t, s1, Lock(0));
    var s2 := In(s0, ses.(workers := [Cleared], since := 0, base := ses.bitmap.Members()));
    ResetIsNext(spec, s1, s2);
    t := Extended(spec, t, s2, Reset(0));
  }

  lemma HasBits(v: Bitmap)
    requires v.Valid() && 0 in v.Members()
    ensures v.setCount > 0
  {
    if v.setCount == 0 { CountPositive(v.bits, v.count); }
  }

  lemma {:induction false} CountPositive(bits: seq<byte>, n: nat)
    requires 0 < n <= 8 * |bits| && BitAt(bits, 0)
    ensures CountBelow(bits, n) > 0
  {
    if n > 1 { CountPositive(bits, n - 1); }
  }

  /** A run that ends with a record in place that claims chunk 0. */
  lemma UntilRenamed(spec: Spec, s: State, bytes: seq<byte>) returns (t: Trace, v: Bitmap)
    requires spec.Valid() && Init(s) && |s.cache| == spec.layout.fileSize && spec.Verified(0, bytes)
    requires spec.threshold > 0
    ensures t.Of(spec) && v in t.last.renamed && v.Sized() && 0 in v.Members()
  {
    hide Next, Trace.Of, Bitmap.Members, Bitmap.PaddingClear, Spec.Verified, EncodeRecord;
    t := UntilReset(spec, s, bytes);
    var s0, ses := t.last, t.last.session.value;
    v := ses.bitmap;
    HasBits(v);
    var s1 := In(s0, ses.(workers := [Snapped(v)], latest := v.Members()));
    SnapshotIsNext(spec, s0, s1);
    t := Extended(spec, t, s1, Snapshot(0));
    t := Synchronised(spec, t, v);
    var s2, ses2 := t.last, t.last.session.value;
    var s3 := In(s2, ses2.(workers := [Stored(v)]));
    StoreIsNext(spec, s2, s3, v);
    t := Extended(spec, t, s3, StoreTmp(0));
    var s4 := In(s2, ses2.(workers := [Idle])).(sidecar := Some(EncodeRecord(spec.H, spec.key, v)),
      renamed := s2.renamed + {v});
    RenameIsNext(spec, s3, s4, v);
    t := Extended(spec, t, s4, Rename(0));
  }

  /** The sync of a checkpoint, from its start to its return. */
  lemma Synchronised(spec: Spec, t: Trace, v: Bitmap) returns (t': Trace)
    requires spec.Valid() && t.Of(spec) && t.last.session.Some?
    requires t.last.session.value.workers == [Snapped(v)] && t.last.session.value.finish == NotYet
    ensures t'.Of(spec) && t'.last.session.Some? && t'.last.session.value.workers == [Synced(v)]
  {
    hide Next, Trace.Of;
    var s, ses := t.last, t.last.session.value;
    var s1 := In(s, ses.(workers := [Syncing(v, Positions(|s.cache|))]));
    SyncBeginIsNext(spec, s, s1, v);
    t' := Extended(spec, t, s1, SyncBegin(0));
    t' := WrittenBack(spec, t');
    SyncFlushed(s1.session.value, v, |s.cache|);
    var s2 := t'.last;
    var s3 := In(s2, s2.session.value.(workers := [Synced(v)]));
    SyncEndIsNext(spec, s2, s3, v);
    t' := Extended(spec, t', s3, SyncEnd(0));
  }

  // ----- a finished file ------------------------------------------------------------------------

  lemma FinishBeginIsNext(spec: Spec, s: State, s': State)
    requires spec.Valid() && s.session.Some? && s.session.value.workers == [Idle] && s.session.value.finish.NotYet?
    requires s.session.value.bitmap.IsComplete()
    requires s' == In(s, s.session.value.(finish := Flushing(Positions(|s.cache|))))
    ensures Next(spec, s, s', FinishBegin)
  {
    hide DiskStep, WorkerStep;
  }

  lemma FinishEndIsNext(spec: Spec, s: State, s': State)
    requires spec.Valid() && s.session.Some? && s.session.value.finish == Flushing({}) && |s.durable| == |s.cache|
    requires s' == In(s, s.session.value.(finish := Done)).(completed := true)
    ensures Next(spec, s, s', FinishEnd)
  {
    hide DiskStep, WorkerStep;
  }

  /** A run that finishes a file of one chunk, whatever the checkpoint threshold. */
  lemma UntilDone(spec: Spec, s: State, bytes: seq<byte>) returns (t: Trace)
    requires spec.Valid() && Init(s) && |s.cache| == spec.layout.fileSize && spec.Verified(0, bytes)
    requires spec.layout.count == 1
    ensures t.Of(spec) && t.last.session.Some? && t.last.session.value.finish.Done?
  {
    hide Next, Trace.Of, Bitmap.Members, Bitmap.PaddingClear, Spec.Verified, Spec.Holds, ChunkLayout.Len;
    t := FirstTaken(spec, s, bytes);
    t := CountedOn(spec, t, 0);
    t := MadeIdle(spec, t);
    var s0, ses := t.last, t.last.session.value;
    CompleteIffAllSet(ses.bitmap);
    var s1 := In(s0, ses.(finish := Flushing(Positions(|s0.cache|))));
    FinishBeginIsNext(spec, s0, s1);
    t := Extended(spec, t, s1, FinishBegin);
    t := WrittenBack(spec, t);
    FinishFlushed(s1.session.value, |s0.cache|);
    var s2 := t.last;
    var s3 := In(s2, s2.session.value.(finish := Done)).(completed := true);
    FinishEndIsNext(spec, s2, s3);
    t := Extended(spec, t, s3, FinishEnd);
  }

  /** A worker that owes a checkpoint may lose the race for the lock and go on. */
  lemma MadeIdle(spec: Spec, t: Trace) returns (t': Trace)
    requires spec.Valid() && t.Of(spec) && t.last.session.Some?
    requires t.last.session.value.workers == [Idle] || t.last.session.value.workers == [Due]
    ensures t'.Of(spec) && t'.last == In(t.last, t.last.session.value.(workers := [Idle]))
  {
    hide Next, Trace.Of;
    t' := t;
    var s := t.last;
    if s.session.value.workers == [Due] {
      var s' := In(s, s.session.value.(workers := [Idle]));
      LoseRaceIsNext(spec, s, s');
      t' := Extended(spec, t, s', LoseRace(0));
    }
  }
}
