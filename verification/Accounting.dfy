// Checkpoint accounting (aetherlink-core recv.rs, `checkpoint_if_due`): resetting the
// counter before the snapshot never loses track of data no record covers.

module Accounting {
  import opened Base
  import opened Layout
  import opened Bitmaps
  import opened WorkQueue
  import opened Counters
  import opened Record
  import opened Receiver
  import opened Traces
  import CrashSafety

  /** The bytes of a set of chunks. */
  ghost function BytesOf(spec: Spec, chunks: set<nat>): nat {
    HeldBytes(chunks, spec.layout, spec.layout.count)
  }

  /** The chunks of workers between setting their bit and advancing the counter. */
  ghost function InWindow(spec: Spec, workers: seq<Worker>): nat {
    if workers == [] then 0
    else InWindow(spec, workers[..|workers| - 1]) + WindowOf(spec, workers[|workers| - 1])
  }

  ghost function WindowOf(spec: Spec, x: Worker): nat {
    if x.Marked? then ChunkWeight(spec.layout, x.index) else 0
  }

  lemma {:induction false} InWindowUpdate(spec: Spec, workers: seq<Worker>, w: nat, x: Worker)
    requires w < |workers|
    ensures InWindow(spec, workers[w := x]) + WindowOf(spec, workers[w]) == InWindow(spec, workers) + WindowOf(spec, x)
    decreases |workers|
  {
    hide WindowOf;
    var n := |workers| - 1;
    if w < n {
      InWindowUpdate(spec, workers[..n], w, x);
      assert workers[w := x][..n] == workers[..n][w := x];
    } else {
      assert workers[w := x][..n] == workers[..n];
    }
  }

  lemma {:induction false} InWindowSame(spec: Spec, a: seq<Worker>, b: seq<Worker>)
    requires |a| == |b| && forall k :: 0 <= k < |a| ==> WindowOf(spec, a[k]) == WindowOf(spec, b[k])
    ensures InWindow(spec, a) == InWindow(spec, b)
  {
    if a != [] { InWindowSame(spec, a[..|a| - 1], b[..|b| - 1]); }
  }

  lemma {:induction false} BytesMonotone(a: set<nat>, b: set<nat>, l: ChunkLayout, n: nat)
    requires a <= b
    ensures HeldBytes(a, l, n) <= HeldBytes(b, l, n)
  {
    if n > 0 { BytesMonotone(a, b, l, n - 1); }
  }

  lemma {:induction false} BytesAddOne(a: set<nat>, b: set<nat>, i: nat, l: ChunkLayout, n: nat)
    requires b <= a + {i}
    ensures HeldBytes(b, l, n) <= HeldBytes(a, l, n) + (if i < n then ChunkWeight(l, i) else 0)
  {
    if n > 0 { BytesAddOne(a, b, i, l, n - 1); }
  }

  lemma {:induction false} NoBytes(l: ChunkLayout, n: nat)
    ensures HeldBytes({}, l, n) == 0
  {
    if n > 0 { NoBytes(l, n - 1); }
  }

  /** Someone has reset the counter and not yet taken the snapshot it announces. */
  ghost predicate SnapshotPending(ses: Session) {
    exists k :: 0 <= k < |ses.workers| && ses.workers[k].Cleared?
  }

  ghost predicate Accounted(spec: Spec, ses: Session) {
    && ses.bitmap.Valid() && ses.bitmap.count == spec.layout.count
    && ses.base <= ses.bitmap.Members()
    && BytesOf(spec, ses.bitmap.Members() - ses.base) <= ses.since + InWindow(spec, ses.workers)
    && (ses.base <= ses.latest || SnapshotPending(ses))
  }

  ghost predicate Inv(spec: Spec, s: State) {
    s.session.Some? ==> Accounted(spec, s.session.value)
  }

  // ----- steps that leave the accounts alone ---------------------------------------------------

  /** A worker moves between places that are neither in the window nor a pending snapshot. */
  lemma QuietMove(spec: Spec, ses: Session, w: nat, x: Worker)
    requires Accounted(spec, ses) && w < |ses.workers| && !ses.workers[w].Cleared?
    requires WindowOf(spec, x) == WindowOf(spec, ses.workers[w])
    ensures Accounted(spec, Put(ses, w, x))
  {
    hide Bitmap.Members, Bitmap.Valid, WindowOf, BytesOf;
    InWindowUpdate(spec, ses.workers, w, x);
    if SnapshotPending(ses) { PendingStays(ses, w, x); }
  }

  lemma PendingStays(ses: Session, w: nat, x: Worker)
    requires w < |ses.workers| && (!ses.workers[w].Cleared? || x.Cleared?) && SnapshotPending(ses)
    ensures SnapshotPending(Put(ses, w, x))
  {
    var k :| 0 <= k < |ses.workers| && ses.workers[k].Cleared?;
    assert Put(ses, w, x).workers[k].Cleared?;
  }

  // ----- steps that move them --------------------------------------------------------------------

  /** Setting a bit adds at most that chunk, and puts it in the window. */
  lemma SetBitAccounted(spec: Spec, ses: Session, w: nat)
    requires Accounted(spec, ses) && w < |ses.workers| && ses.workers[w].Written?
      && ses.workers[w].index < ses.bitmap.count
    ensures
      var i := ses.workers[w].index;
      Accounted(spec, Put(ses, w, Marked(i)).(bitmap := WithBit(ses.bitmap, i)))
  {
    hide Bitmap.Members, Bitmap.PaddingClear, WithBit;
    var i := ses.workers[w].index;
    var bitmap := WithBit(ses.bitmap, i);
    WithBitAddsMember(ses.bitmap, i);
    BytesAddOne(ses.bitmap.Members() - ses.base, bitmap.Members() - ses.base, i, spec.layout, spec.layout.count);
    InWindowUpdate(spec, ses.workers, w, Marked(i));
    if SnapshotPending(ses) {
      PendingStays(ses, w, Marked(i));
      PendingElsewhere(Put(ses, w, Marked(i)), Put(ses, w, Marked(i)).(bitmap := bitmap));
    }
  }

  lemma PendingElsewhere(ses: Session, ses': Session)
    requires ses.workers == ses'.workers && SnapshotPending(ses)
    ensures SnapshotPending(ses')
  {
    var k :| 0 <= k < |ses.workers| && ses.workers[k].Cleared?;
    assert ses'.workers[k].Cleared?;
  }

  /** Advancing the counter takes the chunk out of the window. */
  lemma CountAccounted(spec: Spec, ses: Session, w: nat, x: Worker)
    requires Accounted(spec, ses) && w < |ses.workers| && ses.workers[w].Marked? && (x.Idle? || x.Due?)
    requires spec.layout.Valid() && ses.workers[w].index < spec.layout.count
    ensures Accounted(spec, Put(ses, w, x).(since := ses.since + spec.layout.Len(ses.workers[w].index)))
  {
    hide Bitmap.Members, Bitmap.PaddingClear, BytesOf, ChunkLayout.Start;
    var ses' := Put(ses, w, x).(since := ses.since + spec.layout.Len(ses.workers[w].index));
    InWindowUpdate(spec, ses.workers, w, x);
    if SnapshotPending(ses) {
      PendingStays(ses, w, x);
      PendingElsewhere(Put(ses, w, x), ses');
    }
  }

  /** Resetting forgets the count, but only of chunks the announced snapshot will hold. */
  lemma ResetAccounted(spec: Spec, ses: Session, w: nat)
    requires Accounted(spec, ses) && w < |ses.workers| && ses.workers[w].Locked?
    ensures Accounted(spec, Put(ses, w, Cleared).(since := 0, base := ses.bitmap.Members()))
  {
    hide Bitmap.Members, Bitmap.PaddingClear;
    var ses' := Put(ses, w, Cleared).(since := 0, base := ses.bitmap.Members());
    assert ses.bitmap.Members() - ses.bitmap.Members() == {};
    NoBytes(spec.layout, spec.layout.count);
    assert ses'.workers[w].Cleared?;
  }

  /** A snapshot covers everything below the reset point. */
  lemma SnapshotAccounted(spec: Spec, ses: Session, w: nat, x: Worker)
    requires Accounted(spec, ses) && w < |ses.workers| && !ses.workers[w].Marked? && !x.Marked?
    ensures Accounted(spec, Put(ses, w, x).(latest := ses.bitmap.Members()))
  {
    hide Bitmap.Members, Bitmap.PaddingClear, BytesOf;
    InWindowUpdate(spec, ses.workers, w, x);
  }

  lemma FlushAccounted(spec: Spec, ses: Session, at: set<nat>)
    requires Accounted(spec, ses)
    ensures Accounted(spec, FlushedSession(ses, at))
  {
    hide Bitmap.Members, Bitmap.PaddingClear, BytesOf;
    var ses' := FlushedSession(ses, at);
    InWindowSame(spec, ses.workers, ses'.workers);
    if SnapshotPending(ses) {
      var k :| 0 <= k < |ses.workers| && ses.workers[k].Cleared?;
      assert ses'.workers[k].Cleared?;
    }
  }

  lemma FinishAccounted(spec: Spec, ses: Session, finish: Finish)
    requires Accounted(spec, ses)
    ensures Accounted(spec, ses.(finish := finish))
  {
    hide Bitmap.Members, Bitmap.PaddingClear, BytesOf, InWindow;
    if SnapshotPending(ses) { PendingElsewhere(ses, ses.(finish := finish)); }
  }

  lemma OpenAccounted(spec: Spec, v: Bitmap, streams: nat)
    requires v.Valid() && v.count == spec.layout.count
    ensures Accounted(spec, Session(v, 0, seq(streams, _ => Idle), NotYet, v.Members(), v.Members()))
  {
    hide Bitmap.Members, Bitmap.PaddingClear, InWindow;
    assert v.Members() - v.Members() == {};
    NoBytes(spec.layout, spec.layout.count);
  }

  // ----- records and bitmaps fit the layout -----------------------------------------------------

  /** A worker's snapshot is a bitmap of this file. */
  ghost predicate WorkerFits(spec: Spec, x: Worker)
    requires spec.Valid()
  {
    x.Snapped? || x.Syncing? || x.Synced? || x.Stored? ==> CrashSafety.Fits(spec, x.record)
  }

  /** Every bitmap in memory, in a record in place or on its way there is a bitmap of this file. This
      does not depend on the hash. */
  ghost predicate AllFit(spec: Spec, s: State)
    requires spec.Valid()
  {
    && (forall v :: v in s.renamed ==> CrashSafety.Fits(spec, v))
    && (s.sidecar.Some? ==> exists v :: v in s.renamed && s.sidecar.value == EncodeRecord(spec.H, spec.key, v))
    && (s.session.Some? ==>
          && CrashSafety.Fits(spec, s.session.value.bitmap)
          && forall k :: 0 <= k < |s.session.value.workers| ==> WorkerFits(spec, s.session.value.workers[k]))
  }

  /** The bitmap a session opens with fits the layout: a record that loads is one that was put there. */
  lemma ChosenFits(spec: Spec, s: State, cache: seq<byte>, step: Step)
    requires spec.Valid() && AllFit(spec, s) && step.Open? && Chosen(spec, cache, s.sidecar, step)
    ensures CrashSafety.Fits(spec, step.bitmap)
  {
    hide Bitmap.PaddingClear, EncodeRecord, Load, Matches, WorkerFits;
    NewIsEmpty(spec.layout.count);
    var loaded := Load(spec.H, s.sidecar, Some(|cache|), spec.key);
    if step.resume && loaded.Some? {
      CrashSafety.LoadNeedsSidecar(spec, s.sidecar, |cache|);
      var v :| v in s.renamed && s.sidecar.value == EncodeRecord(spec.H, spec.key, v);
      LoadAcceptsExactly(spec.H, s.sidecar.value, Some(|cache|), spec.key, loaded.value);
      LoadAcceptsExactly(spec.H, s.sidecar.value, Some(|cache|), spec.key, v);
    }
  }

  lemma DiskStepFits(spec: Spec, s: State, s': State, step: Step)
    requires spec.Valid() && AllFit(spec, s) && DiskStep(spec, s, s', step)
    ensures AllFit(spec, s')
  {
    hide CrashSafety.Fits, Chosen, EncodeRecord, Bitmap.Members, Overlay, Resize;
    match step {
      case Open(_, _, _, _, streams) =>
        ChosenFits(spec, s, s'.cache, step);
        assert forall k :: 0 <= k < streams ==> s'.session.value.workers[k] == Idle;
      case _ =>
    }
  }

  lemma WorkerStepFits(spec: Spec, s: State, s': State, step: Step, w: nat)
    requires spec.Valid() && AllFit(spec, s) && s.session.Some? && w < |s.session.value.workers|
    requires WorkerOf(step) == Some(w) && WorkerStep(spec, s, s', step, w)
    ensures AllFit(spec, s')
  {
    hide CrashSafety.Fits, Bitmap.Members, WithBit, Overlay, Placed, EncodeRecord, Spec.Verified, NobodyLocks, Joined,
      AllFit;
    var ses, ses' := s.session.value, s'.session.value;
    WorkerOfFits(spec, s, w);
    if step.SetBit? { SetBitFits(spec, ses.bitmap, ses.workers[w].index); }
    MoveFits(spec, s, s', w);
  }

  lemma WorkerOfFits(spec: Spec, s: State, w: nat)
    requires spec.Valid() && AllFit(spec, s) && s.session.Some? && w < |s.session.value.workers|
    ensures CrashSafety.Fits(spec, s.session.value.bitmap) && WorkerFits(spec, s.session.value.workers[w])
  {
  }

  lemma SetBitFits(spec: Spec, v: Bitmap, i: nat)
    requires spec.Valid() && CrashSafety.Fits(spec, v) && i < v.count
    ensures CrashSafety.Fits(spec, WithBit(v, i))
  {
    hide WithBit, Bitmap.Members, Bitmap.PaddingClear;
    WithBitAddsMember(v, i);
  }

  /** A worker moves, and at most its own record is put in place. */
  lemma MoveFits(spec: Spec, s: State, s': State, w: nat)
    requires spec.Valid() && AllFit(spec, s) && s.session.Some? && s'.session.Some? && w < |s.session.value.workers|
    requires |s'.session.value.workers| == |s.session.value.workers|
    requires s'.session.value.workers == s.session.value.workers[w := s'.session.value.workers[w]]
    requires WorkerFits(spec, s'.session.value.workers[w]) && CrashSafety.Fits(spec, s'.session.value.bitmap)
    requires
      || (s'.sidecar == s.sidecar && s'.renamed == s.renamed)
      || exists v ::
           && CrashSafety.Fits(spec, v) && s'.renamed == s.renamed + {v}
           && s'.sidecar == Some(EncodeRecord(spec.H, spec.key, v))
    ensures AllFit(spec, s')
  {
    hide CrashSafety.Fits, EncodeRecord, WorkerFits;
    if !(s'.sidecar == s.sidecar && s'.renamed == s.renamed) {
      var v :| CrashSafety.Fits(spec, v) && s'.renamed == s.renamed + {v}
        && s'.sidecar == Some(EncodeRecord(spec.H, spec.key, v));
      assert v in s'.renamed;
    }
  }

  lemma StepFits(spec: Spec, s: State, s': State, step: Step)
    requires spec.Valid() && AllFit(spec, s) && Receiver.Next(spec, s, s', step)
    ensures AllFit(spec, s')
  {
    hide DiskStep, WorkerStep, CrashSafety.Fits, EncodeRecord;
    if DiskStep(spec, s, s', step) {
      DiskStepFits(spec, s, s', step);
    } else if !(s.session.Some? && FinishStep(s, s', step)) {
      WorkerStepFits(spec, s, s', step, WorkerOf(step).value);
    }
  }

  lemma {:induction false} RunFits(spec: Spec, states: seq<State>, steps: seq<Step>, k: nat)
    requires spec.Valid() && Receiver.IsRun(spec, states, steps) && k < |states|
    ensures AllFit(spec, states[k])
  {
    hide Receiver.Next;
    if k > 0 {
      RunFits(spec, states, steps, k - 1);
      assert Receiver.Next(spec, states[k - 1], states[k], steps[k - 1]);
      StepFits(spec, states[k - 1], states[k], steps[k - 1]);
    }
  }

  // ----- every run ---------------------------------------------------------------------------------

  lemma DiskStepAccounted(spec: Spec, s: State, s': State, step: Step)
    requires spec.Valid() && AllFit(spec, s) && Inv(spec, s) && DiskStep(spec, s, s', step)
    ensures Inv(spec, s')
  {
    hide Accounted, AllFit, Chosen, Bitmap.Members, Bitmap.Valid, Overlay, Resize, EncodeRecord, FlushedSession;
    match step
    case Open(_, _, _, bitmap, streams) =>
      ChosenFits(spec, s, s'.cache, step);
      OpenAccounted(spec, bitmap, streams);
    case Flush(at) => if s.session.Some? { FlushAccounted(spec, s.session.value, at); }
    case _ =>
  }

  lemma WorkerStepAccounted(spec: Spec, s: State, s': State, step: Step, w: nat)
    requires spec.Valid() && spec.threshold > 0 && s.session.Some? && Inv(spec, s) && w < |s.session.value.workers|
    requires WorkerOf(step) == Some(w) && WorkerStep(spec, s, s', step, w)
    ensures Inv(spec, s')
  {
    hide Accounted, Bitmap.Members, Bitmap.Valid, WithBit, Overlay, Placed, EncodeRecord, Put, Spec.Verified,
      NobodyLocks;
    var ses := s.session.value;
    var x := ses.workers[w];
    match step
    case Receive(_, index, bytes) => QuietMove(spec, ses, w, Writing(index, bytes));
    case WriteEnd(_) => QuietMove(spec, ses, w, Written(x.index));
    case SetBit(_) => SetBitAccounted(spec, ses, w);
    case Count(_) =>
      CountAccounted(spec, ses, w, Idle);
      CountAccounted(spec, ses, w, Due);
    case LoseRace(_) => QuietMove(spec, ses, w, Idle);
    case Lock(_) => QuietMove(spec, ses, w, Locked);
    case Reset(_) => ResetAccounted(spec, ses, w);
    case Snapshot(_) =>
      SnapshotAccounted(spec, ses, w, Idle);
      SnapshotAccounted(spec, ses, w, Snapped(ses.bitmap));
    case LastCheckpoint(_) =>
      SnapshotAccounted(spec, ses, w, x);
      SnapshotAccounted(spec, ses, w, Snapped(ses.bitmap));
    case SyncBegin(_) => QuietMove(spec, ses, w, Syncing(x.record, Positions(|s.cache|)));
    case SyncEnd(_) => QuietMove(spec, ses, w, Synced(x.record));
    case StoreTmp(_) => QuietMove(spec, ses, w, Stored(x.record));
    case Rename(_) => QuietMove(spec, ses, w, Idle);
    case GiveUp(_) => QuietMove(spec, ses, w, Failed);
    case WriteSome(_, _) =>
  }

  lemma StepKeepsAccounts(spec: Spec, s: State, s': State, step: Step)
    requires spec.Valid() && spec.threshold > 0 && AllFit(spec, s) && Inv(spec, s)
    requires Receiver.Next(spec, s, s', step)
    ensures Inv(spec, s')
  {
    hide Accounted, DiskStep, WorkerStep, AllFit;
    if DiskStep(spec, s, s', step) {
      DiskStepAccounted(spec, s, s', step);
    } else if s.session.Some? && FinishStep(s, s', step) {
      FinishAccounted(spec, s.session.value, s'.session.value.finish);
    } else {
      WorkerStepAccounted(spec, s, s', step, WorkerOf(step).value);
    }
  }

  lemma {:induction false} RunKeepsAccounts(spec: Spec, states: seq<State>, steps: seq<Step>, k: nat)
    requires spec.Valid() && spec.threshold > 0
    requires Receiver.IsRun(spec, states, steps) && k < |states|
    ensures Inv(spec, states[k])
  {
    hide Receiver.Next, Inv, AllFit;
    if k == 0 {
      assert states[0].session.None?;
      NoSession(spec, states[0]);
    } else {
      RunKeepsAccounts(spec, states, steps, k - 1);
      RunFits(spec, states, steps, k - 1);
      assert Receiver.Next(spec, states[k - 1], states[k], steps[k - 1]);
      StepKeepsAccounts(spec, states[k - 1], states[k], steps[k - 1]);
    }
  }

  lemma NoSession(spec: Spec, s: State)
    requires s.session.None?
    ensures Inv(spec, s)
  {
  }

  /** What the next snapshot is bound to hold: once the counter has been reset, everything that was in
      the bitmap then. */
  ghost function Announced(ses: Session): set<nat> {
    if SnapshotPending(ses) then ses.base else {}
  }

  /** Checkpoint accounting. At every moment of every run of a session with a non-zero threshold, the
      chunks recorded but absent from the latest snapshot, and from the one a worker has reset the counter for
      and is about to take, weigh at most `since_checkpoint` plus the chunks of the workers between setting a
      bit and advancing the counter. */
  lemma UnrecordedBytesAreCounted(spec: Spec, states: seq<State>, steps: seq<Step>, k: nat)
    requires spec.Valid() && spec.threshold > 0
    requires Receiver.IsRun(spec, states, steps) && k < |states| && states[k].session.Some?
    ensures
      var ses := states[k].session.value;
      && ses.bitmap.Sized() && Announced(ses) <= ses.bitmap.Members()
      && BytesOf(spec, ses.bitmap.Members() - ses.latest - Announced(ses)) <= ses.since + InWindow(spec, ses.workers)
  {
    hide Receiver.IsRun, Bitmap.Members, InWindow;
    RunKeepsAccounts(spec, states, steps, k);
    var ses := states[k].session.value;
    BytesMonotone(ses.bitmap.Members() - ses.latest - Announced(ses), ses.bitmap.Members() - ses.base,
                  spec.layout, spec.layout.count);
  }

  // ----- the plain bound, and exactly when it holds ------------------------------------------------

  /** The bound against the latest snapshot alone. */
  ghost predicate PlainBound(spec: Spec, ses: Session) {
    ses.bitmap.Sized() && BytesOf(spec, ses.bitmap.Members() - ses.latest) <= ses.since + InWindow(spec, ses.workers)
  }

  /** Unless a worker stands between reset and snapshot, the plain bound holds. */
  lemma PlainBoundAtRest(spec: Spec, states: seq<State>, steps: seq<Step>, k: nat)
    requires spec.Valid() && spec.threshold > 0
    requires Receiver.IsRun(spec, states, steps) && k < |states| && states[k].session.Some?
    requires !SnapshotPending(states[k].session.value)
    ensures PlainBound(spec, states[k].session.value)
  {
    hide Receiver.IsRun, Bitmap.Members, InWindow, BytesOf;
    UnrecordedBytesAreCounted(spec, states, steps, k);
    var ses := states[k].session.value;
    assert ses.bitmap.Members() - ses.latest - {} == ses.bitmap.Members() - ses.latest;
  }

  lemma GapIsOpen(spec: Spec, ses: Session)
    requires spec.layout.Valid() && spec.layout.count > 0 && ses.workers == [Cleared] && ses.since == 0
    requires ses.bitmap.Sized() && ses.bitmap.Members() == {0} && ses.latest == {}
    ensures SnapshotPending(ses)
    ensures BytesOf(spec, ses.bitmap.Members() - ses.latest) > ses.since + InWindow(spec, ses.workers)
  {
    hide Bitmap.Members;
    assert ses.workers[0].Cleared?;
    assert ses.bitmap.Members() - ses.latest == {0};
    ZeroWeighs(spec.layout, spec.layout.count);
    assert [Cleared][..0] == [];
  }

  /** And there it may fail, whatever the threshold: a worker that has counted its chunks past the
      threshold, taken the lock and reset the counter leaves them in no snapshot and in no counter, until it
      takes the snapshot. */
  lemma ResetOpensGap(spec: Spec, s: State, bytes: seq<byte>) returns (t: Trace)
    requires spec.Valid() && Receiver.Init(s) && |s.cache| == spec.layout.fileSize && spec.Verified(0, bytes)
    requires spec.threshold > 0
    ensures t.Of(spec) && t.last.session.Some?
    ensures SnapshotPending(t.last.session.value) && !PlainBound(spec, t.last.session.value)
  {
    hide Trace.Of, Bitmap.Members, Bitmap.PaddingClear, Spec.Verified, BytesOf, InWindow, SnapshotPending;
    VerifiedFits(spec, 0, bytes);
    t := UntilReset(spec, s, bytes);
    GapIsOpen(spec, t.last.session.value);
  }

  /** For every file whose chunk 0 can arrive at all, and every non-zero threshold: the plain bound holds in
      all states of all runs in which a snapshot is pending, or in all those in which none is, if and only
      if none is. */
  lemma PlainBoundIffNotPending(spec: Spec, s: State, bytes: seq<byte>, pending: bool)
    requires spec.Valid() && Receiver.Init(s) && |s.cache| == spec.layout.fileSize && spec.Verified(0, bytes)
    requires spec.threshold > 0
    ensures !pending <==>
            forall t: Trace :: t.Of(spec) && t.last.session.Some? && SnapshotPending(t.last.session.value) == pending
              ==> PlainBound(spec, t.last.session.value)
  {
    hide Spec.Verified, PlainBound, SnapshotPending, Receiver.IsRun;
    if pending {
      var t := ResetOpensGap(spec, s, bytes);
    } else {
      forall t: Trace | t.Of(spec) && t.last.session.Some? && !SnapshotPending(t.last.session.value)
        ensures PlainBound(spec, t.last.session.value)
      {
        Shape(spec, t);
        PlainBoundAtRest(spec, t.states, t.steps, |t.steps|);
      }
    }
  }

  lemma {:induction false} ZeroWeighs(l: ChunkLayout, n: nat)
    requires l.Valid() && n <= l.count
    ensures n > 0 ==> HeldBytes({0}, l, n) > 0
  {
    if n > 1 { ZeroWeighs(l, n - 1); }
  }
}
