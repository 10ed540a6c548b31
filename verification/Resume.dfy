// Resuming (aetherlink-core recv.rs): what a session knows when it starts. A record in place
// is taken up exactly, a file without one is re-verified, and everything else starts over.

module Resume {
  import opened Base
  import opened Layout
  import opened Bitmaps
  import opened Record
  import opened Receiver
  import Accounting
  import CrashSafety

  // ----- what a session opens with ----------------------------------------------------------

  /** No sidecar, or one that is not a record of any bitmap under this key. */
  ghost predicate NoRecord(spec: Spec, s: State) {
    forall v: Bitmap :: v.Valid() ==> s.sidecar != Some(EncodeRecord(spec.H, spec.key, v))
  }

  /** The file has its full length once it has been reserved. */
  ghost predicate Reservable(spec: Spec, s: State) {
    spec.layout.fileSize == 0 ==> s.cache == []
  }

  /** What an opening step amounts to. */
  lemma OpenSays(spec: Spec, s: State, s': State, step: Step)
    requires spec.Valid() && Next(spec, s, s', step) && step.Open?
    ensures s'.session.Some? && s'.session.value.bitmap == step.bitmap && step.bitmap.Sized()
    ensures s'.cache == spec.Reserve(s.cache) && Chosen(spec, s'.cache, s.sidecar, step)
  {
    hide Chosen, Bitmap.Members;
  }

  /** A session that resumes over a record starts with exactly the bitmap that was recorded. */
  lemma OpensWithRecord(spec: Spec, s: State, s': State, step: Step, v: Bitmap)
    requires spec.Valid() && Next(spec, s, s', step) && step.Open? && step.resume
    requires v.Valid() && s.sidecar == Some(EncodeRecord(spec.H, spec.key, v)) && Reservable(spec, s)
    ensures s'.session.Some? && s'.session.value.bitmap == v
  {
    hide Bitmap.Valid, Bitmap.Members, EncodeRecord, Load, Next;
    OpenSays(spec, s, s', step);
    LoadAcceptsExactly(spec.H, s.sidecar.value, Some(|spec.Reserve(s.cache)|), spec.key, v);
  }

  lemma NothingLoads(spec: Spec, s: State, len: nat)
    requires spec.Valid() && NoRecord(spec, s)
    ensures Load(spec.H, s.sidecar, Some(len), spec.key) == None
  {
    hide EncodeRecord, Bitmap.Valid, Load;
    if s.sidecar.Some? {
      var r := Load(spec.H, s.sidecar, Some(len), spec.key);
      if r.Some? { LoadAcceptsExactly(spec.H, s.sidecar.value, Some(len), spec.key, r.value); }
    } else {
      if Load(spec.H, s.sidecar, Some(len), spec.key).Some? {
        CrashSafety.LoadNeedsSidecar(spec, s.sidecar, len);
      }
    }
  }

  /** Without a record, a session over a file that was already there starts with exactly the chunks
      that can be read and whose bytes have the committed hash. */
  lemma OpensWithWhatIsThere(spec: Spec, s: State, s': State, step: Step, i: nat)
    requires spec.Valid() && Next(spec, s, s', step) && step.Open? && step.resume && step.preexisting
    requires NoRecord(spec, s)
    ensures s'.session.Some? && s'.session.value.bitmap.Valid()
    ensures s'.session.value.bitmap.count == spec.layout.count
    ensures i in s'.session.value.bitmap.Members() <==>
            i < spec.layout.count && i !in step.unreadable && spec.Holds(s'.cache, i)
  {
    hide Bitmap.PaddingClear, EncodeRecord, Load, Bitmap.Members, NoRecord, Next, Chosen, Spec.Holds;
    OpenSays(spec, s, s', step);
    NothingLoads(spec, s, |s'.cache|);
    VerifiedIsChosen(spec, s'.cache, s.sidecar, step, i);
  }

  lemma VerifiedIsChosen(spec: Spec, cache: seq<byte>, sidecar: Option<seq<byte>>, step: Step, i: nat)
    requires spec.Valid() && step.Open? && step.resume && step.preexisting && Chosen(spec, cache, sidecar, step)
    requires Load(spec.H, sidecar, Some(|cache|), spec.key) == None
    requires spec.layout.fileSize > 0 ==> |cache| == spec.layout.fileSize
    ensures step.bitmap.Valid() && step.bitmap.count == spec.layout.count
    ensures i in step.bitmap.Members() <==> i < spec.layout.count && i !in step.unreadable && spec.Holds(cache, i)
  {
    hide Bitmap.PaddingClear, Load, Bitmap.Members, Matches, Spec.Holds;
    if i < spec.layout.count { MatchIffHolds(spec, cache, i); }
  }

  lemma MatchIffHolds(spec: Spec, cache: seq<byte>, i: nat)
    requires spec.Valid() && i < spec.layout.count && |cache| == spec.layout.fileSize
    ensures Matches(spec.H, spec.layout, spec.hashes, cache, i) <==> spec.Holds(cache, i)
  {
  }

  /** With resume off, or with neither record nor file, a session starts with nothing. */
  lemma OpensEmpty(spec: Spec, s: State, s': State, step: Step)
    requires spec.Valid() && Next(spec, s, s', step) && step.Open?
    requires !step.resume || (NoRecord(spec, s) && !step.preexisting)
    ensures s'.session.Some? && s'.session.value.bitmap.Sized() && s'.session.value.bitmap.Members() == {}
    ensures s'.session.value.bitmap.count == spec.layout.count
  {
    hide Bitmap.PaddingClear, EncodeRecord, Load, Bitmap.Members, NoRecord, Next;
    OpenSays(spec, s, s', step);
    NewIsEmpty(spec.layout.count);
    if step.resume { NothingLoads(spec, s, |s'.cache|); }
  }

  // ----- and it can always open -----------------------------------------------------------------

  /** The bitmap of a given set. */
  lemma {:induction false} BitmapOf(count: u64, members: set<nat>, n: nat) returns (v: Bitmap)
    requires n <= count
    ensures v.Valid() && v.count == count && forall i: nat :: i in v.Members() <==> i < n && i in members
  {
    hide Bitmap.Members, Bitmap.PaddingClear, WithBit;
    if n == 0 {
      NewIsEmpty(count);
      v := NewBitmap(count);
    } else {
      v := BitmapOf(count, members, n - 1);
      if n - 1 in members {
        WithBitAddsMember(v, n - 1);
        v := WithBit(v, n - 1);
      }
    }
  }

  ghost function Present(spec: Spec, cache: seq<byte>, unreadable: set<nat>): set<nat>
    requires spec.Valid()
  {
    set i: nat | i < spec.layout.count && i !in unreadable && Matches(spec.H, spec.layout, spec.hashes, cache, i)
  }

  /** From every idle state, however the last session ended, a session can open. */
  lemma CanOpen(spec: Spec, s: State, resume: bool, preexisting: bool, unreadable: set<nat>, streams: nat)
    returns (s': State, step: Step)
    requires spec.Valid() && s.session.None?
    ensures Next(spec, s, s', step) && step.Open? && step.resume == resume && step.preexisting == preexisting
    ensures step.unreadable == unreadable && step.streams == streams
  {
    hide Bitmap.Members, Bitmap.PaddingClear, Load, EncodeRecord, Matches;
    var cache := spec.Reserve(s.cache);
    var loaded := Load(spec.H, s.sidecar, Some(|cache|), spec.key);
    var v: Bitmap := NewBitmap(spec.layout.count);
    if resume && loaded.Some? {
      CrashSafety.LoadNeedsSidecar(spec, s.sidecar, |cache|);
      LoadAcceptsExactly(spec.H, s.sidecar.value, Some(|cache|), spec.key, loaded.value);
      v := loaded.value;
    } else if resume && preexisting {
      v := BitmapOf(spec.layout.count, Present(spec, cache, unreadable), spec.layout.count);
    }
    step := Open(resume, preexisting, unreadable, v, streams);
    s' := s.(cache := cache,
             session := Some(Session(v, 0, seq(streams, _ => Idle), NotYet, v.Members(), v.Members())));
  }

  // ----- from a checkpoint to the next session ---------------------------------------------------

  /** The steps that may change the record in place. */
  predicate TouchesRecord(step: Step) { step.Rename? || step.Discard? || step.PowerLoss? }

  lemma RecordStays(spec: Spec, s: State, s': State, step: Step)
    requires spec.Valid() && Next(spec, s, s', step) && !TouchesRecord(step)
    ensures s'.sidecar == s.sidecar
  {
    hide DiskStep, WorkerStep;
    if DiskStep(spec, s, s', step) {
      DiskKeepsRecord(spec, s, s', step);
    } else if !(s.session.Some? && FinishStep(s, s', step)) {
      WorkerKeepsRecord(spec, s, s', step, WorkerOf(step).value);
    }
  }

  lemma DiskKeepsRecord(spec: Spec, s: State, s': State, step: Step)
    requires spec.Valid() && DiskStep(spec, s, s', step) && !TouchesRecord(step)
    ensures s'.sidecar == s.sidecar
  {
    hide EncodeRecord, Chosen, Bitmap.Members, Overlay, Resize, FlushedSession;
  }

  lemma WorkerKeepsRecord(spec: Spec, s: State, s': State, step: Step, w: nat)
    requires spec.Valid() && s.session.Some? && w < |s.session.value.workers|
    requires WorkerStep(spec, s, s', step, w) && !TouchesRecord(step)
    ensures s'.sidecar == s.sidecar
  {
    hide EncodeRecord, Bitmap.Members, Overlay, Placed, WithBit, Put, NobodyLocks, Joined;
  }

  lemma {:induction false} RecordStaysPut(spec: Spec, states: seq<State>, steps: seq<Step>, j: nat, k: nat)
    requires spec.Valid() && IsRun(spec, states, steps) && j <= k <= |steps|
    requires forall m :: j <= m < k ==> !TouchesRecord(steps[m])
    ensures states[k].sidecar == states[j].sidecar
    decreases k
  {
    hide Next;
    if j < k {
      RecordStaysPut(spec, states, steps, j, k - 1);
      assert Next(spec, states[k - 1], states[k], steps[k - 1]);
      RecordStays(spec, states[k - 1], states[k], steps[k - 1]);
    }
  }

  /** What a rename puts in place is the record of the snapshot the worker took. */
  lemma RenamePlaces(spec: Spec, s: State, s': State, w: nat)
    requires spec.Valid() && Next(spec, s, s', Rename(w))
    ensures s.session.Some? && w < |s.session.value.workers| && s.session.value.workers[w].Stored?
    ensures s'.sidecar == Some(EncodeRecord(spec.H, spec.key, s.session.value.workers[w].record))
  {
    hide EncodeRecord, Put, DiskStep;
    NotADiskStep(spec, s, s', Rename(w));
  }

  lemma NotADiskStep(spec: Spec, s: State, s': State, step: Step)
    requires spec.Valid() && step.Rename?
    ensures !DiskStep(spec, s, s', step)
  {
  }

  /** Resume over runs: when a checkpoint has put the record of `v` in place, the next session that
      resumes opens with exactly `v`, whatever sessions and kills lie between, as long as none of them replaced
      or removed the record. */
  lemma NextSessionResumes(spec: Spec, states: seq<State>, steps: seq<Step>, j: nat, k: nat, w: nat)
    requires spec.Valid() && spec.layout.fileSize > 0 && IsRun(spec, states, steps) && j < k < |steps|
    requires steps[j] == Rename(w) && (forall m :: j < m < k ==> !TouchesRecord(steps[m]))
    requires steps[k].Open? && steps[k].resume
    ensures states[j].session.Some? && w < |states[j].session.value.workers|
    ensures states[j].session.value.workers[w].Stored? && states[k + 1].session.Some?
    ensures states[k + 1].session.value.bitmap == states[j].session.value.workers[w].record
  {
    hide IsRun, Next, EncodeRecord, Bitmap.Valid, Bitmap.Members;
    StepOfRun(spec, states, steps, j);
    StepOfRun(spec, states, steps, k);
    RenamePlaces(spec, states[j], states[j + 1], w);
    RecordStaysPut(spec, states, steps, j + 1, k);
    Accounting.RunFits(spec, states, steps, j);
    Accounting.WorkerOfFits(spec, states[j], w);
    OpensWithRecord(spec, states[k], states[k + 1], steps[k], states[j].session.value.workers[w].record);
  }

  /** A finished file may drop its record, and then no later session finds one until a checkpoint or a power
      loss brings one back: a session over the finished file verifies what is there. */
  lemma DiscardedIsForgotten(spec: Spec, states: seq<State>, steps: seq<Step>, j: nat, k: nat)
    requires spec.Valid() && IsRun(spec, states, steps) && j < k <= |steps| && steps[j] == Discard
    requires forall m :: j < m < k ==> !TouchesRecord(steps[m])
    ensures NoRecord(spec, states[k])
  {
    hide IsRun, Next, NoRecord, TouchesRecord;
    StepOfRun(spec, states, steps, j);
    DiscardRemoves(spec, states[j], states[j + 1]);
    RecordStaysPut(spec, states, steps, j + 1, k);
    NoSidecarNoRecord(spec, states[k]);
  }

  lemma NoSidecarNoRecord(spec: Spec, s: State)
    requires s.sidecar == None
    ensures NoRecord(spec, s)
  {
    hide EncodeRecord, Bitmap.Valid;
  }

  lemma DiscardRemoves(spec: Spec, s: State, s': State)
    requires spec.Valid() && Next(spec, s, s', Discard)
    ensures s'.sidecar == None && s.session.Some? && s.session.value.finish.Done?
  {
  }

  lemma CanDiscard(spec: Spec, s: State) returns (s': State)
    requires spec.Valid() && s.session.Some? && s.session.value.finish.Done?
    ensures Next(spec, s, s', Discard)
  {
    hide DiskStep, WorkerStep;
    s' := s.(sidecar := None);
  }

  lemma StepOfRun(spec: Spec, states: seq<State>, steps: seq<Step>, k: nat)
    requires spec.Valid() && IsRun(spec, states, steps) && k < |steps|
    ensures |states| == |steps| + 1 && Next(spec, states[k], states[k + 1], steps[k])
  {
    hide Next;
  }
}
