// The checkpoint as a protocol (aetherlink-core recv.rs, `checkpoint_if_due`): one at a
// time per file, and what it puts in place is the bitmap of one moment.

module Checkpoint {
  import opened Base
  import opened Layout
  import opened Bitmaps
  import opened Record
  import opened Receiver
  import opened Traces
  import Resume
  import CrashSafety

  // ----- one at a time ---------------------------------------------------------------------

  /** Between taking the lock and letting go of it. */
  predicate Inside(x: Worker) {
    x.Locked? || x.Cleared? || x.Snapped? || x.Syncing? || x.Synced? || x.Stored?
  }

  ghost predicate Exclusive(s: State) {
    s.session.Some? ==> forall v, w :: 0 <= v < w < |s.session.value.workers| ==>
      !(Inside(s.session.value.workers[v]) && Inside(s.session.value.workers[w]))
  }

  lemma WorkerStepExclusive(spec: Spec, s: State, s': State, step: Step, w: nat)
    requires spec.Valid() && Exclusive(s) && s.session.Some? && w < |s.session.value.workers|
    requires WorkerOf(step) == Some(w) && WorkerStep(spec, s, s', step, w)
    ensures Exclusive(s')
  {
    hide WorkerStep, Exclusive, Inside;
    MovesOne(spec, s, s', step, w);
    MoveExclusive(s, s', w, s'.session.value.workers[w]);
  }

  lemma MovesOne(spec: Spec, s: State, s': State, step: Step, w: nat)
    requires spec.Valid() && s.session.Some? && w < |s.session.value.workers|
    requires WorkerOf(step) == Some(w) && WorkerStep(spec, s, s', step, w)
    ensures s'.session.Some? && |s'.session.value.workers| == |s.session.value.workers|
    ensures s'.session.value.workers == s.session.value.workers[w := s'.session.value.workers[w]]
    ensures Inside(s'.session.value.workers[w]) ==> Inside(s.session.value.workers[w]) || NoneInside(s.session.value)
  {
    hide Bitmap.Members, WithBit, Overlay, Placed, EncodeRecord, Spec.Verified;
  }

  ghost predicate NoneInside(ses: Session) {
    forall k :: 0 <= k < |ses.workers| ==> !Inside(ses.workers[k])
  }

  lemma MoveExclusive(s: State, s': State, w: nat, x: Worker)
    requires Exclusive(s) && s.session.Some? && s'.session.Some? && w < |s.session.value.workers|
    requires s'.session.value.workers == s.session.value.workers[w := x]
    requires Inside(x) ==> Inside(s.session.value.workers[w]) || NoneInside(s.session.value)
    ensures Exclusive(s')
  {
    hide Inside;
  }

  lemma StepExclusive(spec: Spec, s: State, s': State, step: Step)
    requires spec.Valid() && Exclusive(s) && Next(spec, s, s', step)
    ensures Exclusive(s')
  {
    hide WorkerStep, Chosen, EncodeRecord, Bitmap.Members, Overlay, Resize;
    if !DiskStep(spec, s, s', step) && !(s.session.Some? && FinishStep(s, s', step)) {
      WorkerStepExclusive(spec, s, s', step, WorkerOf(step).value);
    }
  }

  /** At every moment of every run at most one worker is inside a checkpoint, the last one of a failed
      session included. */
  lemma {:induction false} OneCheckpointAtATime(spec: Spec, states: seq<State>, steps: seq<Step>, k: nat)
    requires spec.Valid() && IsRun(spec, states, steps) && k < |states|
    ensures Exclusive(states[k])
    decreases k
  {
    hide Next, Exclusive;
    if k == 0 {
      assert Exclusive(states[0]) by { IdleIsExclusive(states[0]); }
    } else {
      OneCheckpointAtATime(spec, states, steps, k - 1);
      Resume.StepOfRun(spec, states, steps, k - 1);
      StepExclusive(spec, states[k - 1], states[k], steps[k - 1]);
    }
  }

  lemma IdleIsExclusive(s: State)
    requires s.session.None?
    ensures Exclusive(s)
  {
  }

  // ----- the bitmap of one moment -----------------------------------------------------------

  predicate HasRecord(x: Worker) { x.Snapped? || x.Syncing? || x.Synced? || x.Stored? }

  ghost predicate Carrying(s: State, w: nat, v: Bitmap) {
    s.session.Some? && w < |s.session.value.workers| && HasRecord(s.session.value.workers[w])
    && s.session.value.workers[w].record == v
  }

  /** At moment `m` worker `w` took the bitmap as it stood, and it was `v`. */
  ghost predicate TakenAt(states: seq<State>, steps: seq<Step>, w: nat, v: Bitmap, m: nat)
    requires |states| == |steps| + 1
  {
    m < |steps| && (steps[m] == Snapshot(w) || steps[m] == LastCheckpoint(w))
    && states[m].session.Some? && states[m].session.value.bitmap == v
  }

  lemma CarriedOn(spec: Spec, s: State, s': State, step: Step, w: nat, v: Bitmap)
    requires spec.Valid() && Next(spec, s, s', step) && Carrying(s', w, v)
    ensures Carrying(s, w, v) ||
            ((step == Snapshot(w) || step == LastCheckpoint(w)) && s.session.Some? && s.session.value.bitmap == v)
  {
    hide DiskStep, WorkerStep;
    if DiskStep(spec, s, s', step) {
      DiskCarriedOn(spec, s, s', step, w, v);
    } else if !(s.session.Some? && FinishStep(s, s', step)) {
      WorkerCarriedOn(spec, s, s', step, WorkerOf(step).value, w, v);
    }
  }

  lemma DiskCarriedOn(spec: Spec, s: State, s': State, step: Step, w: nat, v: Bitmap)
    requires spec.Valid() && DiskStep(spec, s, s', step) && Carrying(s', w, v)
    ensures Carrying(s, w, v)
  {
    hide Chosen, EncodeRecord, Bitmap.Members, Overlay, Resize;
  }

  lemma WorkerCarriedOn(spec: Spec, s: State, s': State, step: Step, u: nat, w: nat, v: Bitmap)
    requires spec.Valid() && s.session.Some? && u < |s.session.value.workers| && WorkerOf(step) == Some(u)
    requires WorkerStep(spec, s, s', step, u) && Carrying(s', w, v)
    ensures Carrying(s, w, v) || ((step == Snapshot(w) || step == LastCheckpoint(w)) && s.session.value.bitmap == v)
  {
    hide EncodeRecord, Bitmap.Members, Overlay, Placed, WithBit, NobodyLocks, Joined, Spec.Verified;
  }

  lemma {:induction false} CarriedWasTaken(spec: Spec, states: seq<State>, steps: seq<Step>, k: nat, w: nat, v: Bitmap)
    requires spec.Valid() && IsRun(spec, states, steps) && k < |states| && Carrying(states[k], w, v)
    ensures exists m :: 0 <= m < k && TakenAt(states, steps, w, v, m)
    decreases k
  {
    hide Next, Carrying, TakenAt;
    if k == 0 {
      NothingCarried(states[0], w, v);
    } else {
      Resume.StepOfRun(spec, states, steps, k - 1);
      CarriedOn(spec, states[k - 1], states[k], steps[k - 1], w, v);
      if Carrying(states[k - 1], w, v) {
        CarriedWasTaken(spec, states, steps, k - 1, w, v);
      } else {
        assert TakenAt(states, steps, w, v, k - 1) by { TakenNow(states, steps, w, v, k - 1); }
      }
    }
  }

  lemma NothingCarried(s: State, w: nat, v: Bitmap)
    requires s.session.None?
    ensures !Carrying(s, w, v)
  {
  }

  lemma TakenNow(states: seq<State>, steps: seq<Step>, w: nat, v: Bitmap, m: nat)
    requires |states| == |steps| + 1 && m < |steps| && (steps[m] == Snapshot(w) || steps[m] == LastCheckpoint(w))
    requires states[m].session.Some? && states[m].session.value.bitmap == v
    ensures TakenAt(states, steps, w, v, m)
  {
  }

  /** What a rename puts in place is the bitmap exactly as it stood when the worker took its snapshot, at
      one earlier moment of the same run: every chunk marked by then is in the record, and no other. */
  lemma RenamedIsSnapshot(spec: Spec, states: seq<State>, steps: seq<Step>, j: nat, w: nat) returns (v: Bitmap, m: nat)
    requires spec.Valid() && IsRun(spec, states, steps) && j < |steps| && steps[j] == Rename(w)
    ensures m < j && TakenAt(states, steps, w, v, m)
    ensures states[j + 1].sidecar == Some(EncodeRecord(spec.H, spec.key, v))
  {
    hide Next, EncodeRecord, TakenAt, IsRun;
    Resume.StepOfRun(spec, states, steps, j);
    Resume.RenamePlaces(spec, states[j], states[j + 1], w);
    v := states[j].session.value.workers[w].record;
    CarriedWasTaken(spec, states, steps, j, w, v);
    m :| 0 <= m < j && TakenAt(states, steps, w, v, m);
  }

  // ----- an interrupted session leaves its record ----------------------------------------------

  /** Every stream has ended, and worker `w` stands for the session itself, which now checkpoints the file. */
  ghost predicate Interrupted(spec: Spec, s: State, w: nat)
    requires spec.Valid()
  {
    && s.session.Some? && w < |s.session.value.workers| && s.session.value.finish == NotYet
    && (forall k :: 0 <= k < |s.session.value.workers| ==>
          s.session.value.workers[k].Idle? || s.session.value.workers[k].Failed?)
    && s.session.value.bitmap.Sized() && s.session.value.bitmap.setCount > 0
  }

  /** The six steps from the snapshot to the record in place. */
  datatype Six = Six(snapped: State, syncing: State, long: State, clean: State, synced: State, stored: State)

  /** However a session was interrupted, if it has marked anything at all its last checkpoint can run to
      the end, and what it puts in place is the record of everything that was marked. */
  lemma InterruptionIsRecorded(spec: Spec, s: State, w: nat) returns (t: Six, s': State)
    requires spec.Valid() && Interrupted(spec, s, w)
    ensures Next(spec, s, t.snapped, LastCheckpoint(w)) && Next(spec, t.snapped, t.syncing, SyncBegin(w))
    ensures Next(spec, t.syncing, t.long, FlushLength) && Next(spec, t.long, t.clean, Flush(Positions(|s.cache|)))
    ensures Next(spec, t.clean, t.synced, SyncEnd(w)) && Next(spec, t.synced, t.stored, StoreTmp(w))
    ensures Next(spec, t.stored, s', Rename(w))
    ensures s'.sidecar == Some(EncodeRecord(spec.H, spec.key, s.session.value.bitmap)) && s'.cache == s.cache
  {
    hide Next, Bitmap.Members, EncodeRecord, FlushedSession;
    var ses, v, n := s.session.value, s.session.value.bitmap, |s.cache|;
    var ses1 := Put(ses, w, Snapped(v)).(latest := v.Members());
    var snapped := s.(session := Some(ses1));
    LastIsNext(spec, s, snapped, w);
    var syncing := s.(session := Some(Put(ses1, w, Syncing(v, Positions(n)))));
    SyncBeginsNext(spec, snapped, syncing, w, v);
    var long := syncing.(durable := Resize(s.durable, n));
    LengthIsNext(spec, syncing, long);
    var ses2 := Put(ses1, w, Syncing(v, {}));
    OnlyOneSyncs(syncing.session.value, ses2, w, v, n);
    var clean := long.(durable := s.cache, session := Some(ses2));
    FlushIsNext(spec, long, clean);
    var synced, stored;
    synced, stored, s' := PutInPlace(spec, clean, w, v);
    t := Six(snapped, syncing, long, clean, synced, stored);
  }

  /** From the return of the sync to the record in place. */
  lemma PutInPlace(spec: Spec, s: State, w: nat, v: Bitmap) returns (synced: State, stored: State, s': State)
    requires spec.Valid() && s.session.Some? && w < |s.session.value.workers| && |s.durable| == |s.cache|
    requires s.session.value.workers[w] == Syncing(v, {})
    ensures Next(spec, s, synced, SyncEnd(w)) && Next(spec, synced, stored, StoreTmp(w))
      && Next(spec, stored, s', Rename(w))
    ensures s'.sidecar == Some(EncodeRecord(spec.H, spec.key, v)) && s'.cache == s.cache
  {
    hide Next, EncodeRecord, DiskStep, Put;
    var ses := s.session.value;
    var ses1, ses2 := Put(ses, w, Synced(v)), Put(ses, w, Stored(v));
    PutTwice(ses, w, Synced(v), Stored(v));
    PutTwice(ses, w, Stored(v), Idle);
    synced := s.(session := Some(ses1));
    WorkerMoves(spec, s, synced, SyncEnd(w), w);
    stored := s.(session := Some(ses2));
    WorkerMoves(spec, synced, stored, StoreTmp(w), w);
    s' := s.(session := Some(Put(ses, w, Idle)), renamed := s.renamed + {v},
             sidecar := Some(EncodeRecord(spec.H, spec.key, v)));
    WorkerMoves(spec, stored, s', Rename(w), w);
  }

  lemma PutTwice(ses: Session, w: nat, x: Worker, y: Worker)
    requires w < |ses.workers|
    ensures |Put(ses, w, x).workers| == |ses.workers| && Put(ses, w, x).workers[w] == x
    ensures Put(Put(ses, w, x), w, y) == Put(ses, w, y)
  {
    assert ses.workers[w := x][w := y] == ses.workers[w := y];
  }

  lemma SyncBeginsNext(spec: Spec, s: State, s': State, w: nat, v: Bitmap)
    requires spec.Valid() && s.session.Some? && w < |s.session.value.workers|
      && s.session.value.workers[w] == Snapped(v)
    requires s' == s.(session := Some(Put(s.session.value, w, Syncing(v, Positions(|s.cache|)))))
    ensures Next(spec, s, s', SyncBegin(w))
  {
    hide Next, DiskStep;
    WorkerMoves(spec, s, s', SyncBegin(w), w);
  }

  lemma LastIsNext(spec: Spec, s: State, s': State, w: nat)
    requires spec.Valid() && Interrupted(spec, s, w)
    requires
      var v := s.session.value.bitmap;
      s' == s.(session := Some(Put(s.session.value, w, Snapped(v)).(latest := v.Members())))
    ensures Next(spec, s, s', LastCheckpoint(w))
  {
    hide Next, Bitmap.Members;
    WorkerMoves(spec, s, s', LastCheckpoint(w), w);
  }

  lemma WorkerMoves(spec: Spec, s: State, s': State, step: Step, w: nat)
    requires spec.Valid() && s.session.Some? && w < |s.session.value.workers|
    requires WorkerOf(step) == Some(w) && WorkerStep(spec, s, s', step, w)
    ensures Next(spec, s, s', step)
  {
    hide DiskStep, WorkerStep;
  }

  lemma OnlyOneSyncs(ses: Session, ses': Session, w: nat, v: Bitmap, n: nat)
    requires w < |ses.workers| && ses.workers[w] == Syncing(v, Positions(n)) && ses.finish == NotYet
    requires forall k :: 0 <= k < |ses.workers| && k != w ==> !ses.workers[k].Syncing?
    requires ses' == Put(ses, w, Syncing(v, {}))
    ensures FlushedSession(ses, Positions(n)) == ses'
  {
    assert Positions(n) - Positions(n) == {};
    assert Flushed(ses.workers, Positions(n)) == ses'.workers;
  }

  // ----- the environment is free ----------------------------------------------------------------

  /** The process may be killed, the power may fail and any bytes may be written back at every moment. What
      survives a power loss is what had been written back, and any record ever put in place, or none. */
  lemma NothingIsSafeByLuck(spec: Spec, s: State, at: set<nat>, survivor: Option<Bitmap>)
    returns (killed: State, lost: State, flushed: State)
    requires spec.Valid() && (survivor.Some? ==> survivor.value in s.renamed)
    requires forall p :: p in at ==> p < |s.durable| && p < |s.cache|
    ensures Next(spec, s, killed, Kill) && killed.session.None?
    ensures killed.cache == s.cache && killed.durable == s.durable && killed.sidecar == s.sidecar
    ensures Next(spec, s, lost, PowerLoss(survivor)) && lost.session.None?
    ensures lost.cache == s.durable && lost.durable == s.durable
    ensures lost.sidecar == if survivor.Some? then Some(EncodeRecord(spec.H, spec.key, survivor.value)) else None
    ensures Next(spec, s, flushed, Flush(at)) && flushed.cache == s.cache && |flushed.durable| == |s.durable|
    ensures forall p :: 0 <= p < |s.durable| ==> flushed.durable[p] == if p in at then s.cache[p] else s.durable[p]
  {
    hide EncodeRecord, FlushedSession;
    killed := s.(session := None);
    lost := s.(cache := s.durable, session := None,
               sidecar := if survivor.Some? then Some(EncodeRecord(spec.H, spec.key, survivor.value)) else None);
    flushed := s.(durable := Overlay(s.durable, s.cache, at),
                  session := if s.session.Some? then Some(FlushedSession(s.session.value, at)) else None);
  }

  /** A worker may fail wherever it waits for the stream or the disk; inside a checkpoint that lets go of the lock. */
  lemma WorkersMayFail(spec: Spec, s: State, w: nat) returns (s': State)
    requires spec.Valid() && s.session.Some? && w < |s.session.value.workers|
    requires
      var x := s.session.value.workers[w];
      x.Idle? || x.Writing? || x.Syncing? || x.Synced? || x.Stored?
    ensures Next(spec, s, s', GiveUp(w)) && s'.cache == s.cache && s'.sidecar == s.sidecar
    ensures s'.session.Some? && s'.session.value.workers == s.session.value.workers[w := Failed]
  {
    hide DiskStep;
    s' := s.(session := Some(Put(s.session.value, w, Failed)));
  }

  /** While a chunk is being written, any of its bytes may have reached the file. */
  lemma WritesMayTear(spec: Spec, s: State, w: nat, at: set<nat>) returns (s': State)
    requires spec.Valid() && s.session.Some? && w < |s.session.value.workers|
    requires s.session.value.workers[w].Writing? && |s.cache| == spec.layout.fileSize
    requires spec.Verified(s.session.value.workers[w].index, s.session.value.workers[w].bytes)
    ensures Next(spec, s, s', WriteSome(w, at)) && |s'.cache| == |s.cache| && s'.session == s.session
    ensures
      var x := s.session.value.workers[w];
      forall p :: 0 <= p < |s.cache| ==>
        s'.cache[p] == if p in at && spec.InChunk(x.index, p) then x.bytes[p - spec.layout.Start(x.index)]
          else s.cache[p]
  {
    hide DiskStep, Placed;
    var x := s.session.value.workers[w];
    s' := s.(cache := Overlay(s.cache, Placed(spec.layout, s.cache, x.index, x.bytes), at));
    forall p | 0 <= p < |s.cache|
      ensures s'.cache[p] == if p in at && spec.InChunk(x.index, p) then x.bytes[p - spec.layout.Start(x.index)]
        else s.cache[p]
    {
      CrashSafety.PlacedBytes(spec, s.cache, x.index, x.bytes, p);
    }
  }
}
