// End to end, over several files and any number of interrupted sessions
// (aetherlink-core recv.rs, send.rs): Complete is sent only when every accepted
// file has been synced, and the sender returns Ok only on reading it.

module EndToEnd {
  import opened Base
  import opened Layout
  import opened Receiver
  import opened CrashSafety

  /** One accepted file: what the receiver was told, and the sender's unchanging bytes. */
  datatype Accepted = Accepted(spec: Spec, source: seq<byte>) {

    /** The manifest commits to the source: `chunk_hashes` hashed exactly these chunks. */
    ghost predicate Valid() {
      && spec.Valid()
      && |source| == spec.layout.fileSize
      && forall i: nat :: i < spec.layout.count ==> spec.Holds(source, i)
    }

    /** No chunk of the file, cached or on disk, collides with that chunk of the source. */
    ghost predicate Apart(s: State)
      requires spec.Valid()
    {
      ImagesApart(spec, s.cache, source) && ImagesApart(spec, s.durable, source)
    }
  }

  ghost predicate AllAccepted(offer: seq<Accepted>) {
    forall f :: 0 <= f < |offer| ==> offer[f].Valid()
  }

  /** All files of a transfer, whether Complete is on the control stream, and whether the sender
      has returned Ok. */
  datatype World = World(files: seq<State>, completeSent: bool, senderOk: bool)

  datatype Event =
    | OneFile(f: nat, step: Step)
    | EveryFile(steps: seq<Step>)   // a kill or a power loss takes all files with it
    | SendComplete
    | SenderReturns

  ghost predicate Next(offer: seq<Accepted>, w: World, w': World, e: Event)
    requires AllAccepted(offer)
  {
    && |w.files| == |w'.files| == |offer|
    && match e
       case OneFile(f, step) =>
         && f < |offer| && !step.Kill? && !step.PowerLoss?
         && Receiver.Next(offer[f].spec, w.files[f], w'.files[f], step)
         && w' == w.(files := w.files[f := w'.files[f]])
       case EveryFile(steps) =>
         && |steps| == |offer|
         && (forall f :: 0 <= f < |offer| ==>
               (steps[f].Kill? || steps[f].PowerLoss?) &&
               Receiver.Next(offer[f].spec, w.files[f], w'.files[f], steps[f]))
         && w' == w.(files := w'.files)
       case SendComplete =>
         && (forall f :: 0 <= f < |offer| ==>
               w.files[f].session.Some? && w.files[f].session.value.finish.Done?)
         && w' == w.(completeSent := true)
       case SenderReturns =>
         w.completeSent && w' == w.(senderOk := true)
  }

  ghost predicate Init(offer: seq<Accepted>, w: World) {
    && |w.files| == |offer|
    && (forall f :: 0 <= f < |offer| ==> Receiver.Init(w.files[f]))
    && !w.completeSent && !w.senderOk
  }

  ghost predicate IsRun(offer: seq<Accepted>, worlds: seq<World>, events: seq<Event>)
    requires AllAccepted(offer)
  {
    && |worlds| == |events| + 1
    && Init(offer, worlds[0])
    && forall k :: 0 <= k < |events| ==> Next(offer, worlds[k], worlds[k + 1], events[k])
  }

  /** No collision among the strings that meet in one file of this world. */
  ghost predicate NoCollision(offer: seq<Accepted>, w: World)
    requires AllAccepted(offer)
  {
    forall f :: 0 <= f < |offer| && f < |w.files| ==> CrashSafety.NoCollision(offer[f].spec, w.files[f])
  }

  /** No collision in the first `n` worlds of a run. */
  ghost predicate NoCollisions(offer: seq<Accepted>, worlds: seq<World>, n: nat)
    requires AllAccepted(offer) && n <= |worlds|
  {
    forall m :: 0 <= m < n ==> NoCollision(offer, worlds[m])
  }

  ghost predicate FileInv(offer: seq<Accepted>, w: World, f: nat)
    requires AllAccepted(offer) && f < |offer| == |w.files|
  {
    && CrashSafety.Inv(offer[f].spec, w.files[f])
    && (w.completeSent ==> w.files[f].completed)
  }

  ghost predicate Inv(offer: seq<Accepted>, w: World)
    requires AllAccepted(offer)
  {
    && |w.files| == |offer|
    && (forall f :: 0 <= f < |offer| ==> FileInv(offer, w, f))
    && (w.senderOk ==> w.completeSent)
  }

  lemma FileStepKeeps(offer: seq<Accepted>, w: World, w': World, f: nat, step: Step)
    requires AllAccepted(offer) && f < |offer| == |w.files| == |w'.files| && FileInv(offer, w, f)
    requires CrashSafety.NoCollision(offer[f].spec, w.files[f])
    requires Receiver.Next(offer[f].spec, w.files[f], w'.files[f], step) && w'.completeSent == w.completeSent
    ensures FileInv(offer, w', f)
  {
    hide CrashSafety.Inv, Receiver.Next, Spec.Holds, CrashSafety.NoCollision;
    StepKeepsInv(offer[f].spec, w.files[f], w'.files[f], step);
    HistoryGrows(offer[f].spec, w.files[f], w'.files[f], step);
  }

  lemma FinishedIsCompleted(spec: Spec, s: State)
    requires spec.Valid() && CrashSafety.Inv(spec, s) && s.session.Some? && s.session.value.finish.Done?
    ensures s.completed
  {
    hide WorkerInv, DiskInv;
  }

  lemma EventKeepsInv(offer: seq<Accepted>, w: World, w': World, e: Event)
    requires AllAccepted(offer) && Inv(offer, w) && Next(offer, w, w', e) && NoCollision(offer, w)
    ensures Inv(offer, w')
  {
    hide CrashSafety.Inv, Receiver.Next, Accepted.Valid, Accepted.Apart, CrashSafety.NoCollision;
    forall f | 0 <= f < |offer|
      ensures FileInv(offer, w', f)
    {
      ValidSpec(offer, f);
      assert FileInv(offer, w, f);
      match e
      case OneFile(g, step) =>
        if g == f { FileStepKeeps(offer, w, w', f, step); }
      case EveryFile(steps) =>
        FileStepKeeps(offer, w, w', f, steps[f]);
      case SendComplete =>
        FinishedIsCompleted(offer[f].spec, w.files[f]);
      case SenderReturns =>
    }
  }

  lemma ValidSpec(offer: seq<Accepted>, f: nat)
    requires AllAccepted(offer) && f < |offer|
    ensures offer[f].spec.Valid()
  {
  }

  lemma InitInv(offer: seq<Accepted>, w: World)
    requires AllAccepted(offer) && Init(offer, w)
    ensures Inv(offer, w)
  {
    forall f | 0 <= f < |offer|
      ensures FileInv(offer, w, f)
    {
      assert Receiver.Init(w.files[f]);
    }
  }

  lemma {:induction false} RunKeepsInv(offer: seq<Accepted>, worlds: seq<World>, events: seq<Event>, k: nat)
    requires AllAccepted(offer) && IsRun(offer, worlds, events) && k < |worlds| && NoCollisions(offer, worlds, k)
    ensures Inv(offer, worlds[k])
  {
    hide Next, Inv, Init, Accepted.Valid, NoCollision;
    if k == 0 {
      InitInv(offer, worlds[0]);
    } else {
      RunKeepsInv(offer, worlds, events, k - 1);
      assert Next(offer, worlds[k - 1], worlds[k], events[k - 1]);
      EventKeepsInv(offer, worlds[k - 1], worlds[k], events[k - 1]);
    }
  }

  /** A full-length image that holds every chunk is the source. */
  lemma AllChunksIsSource(a: Accepted, content: seq<byte>)
    requires a.Valid() && |content| == a.spec.layout.fileSize && ImagesApart(a.spec, content, a.source)
    requires forall i: nat :: i < a.spec.layout.count ==> a.spec.Holds(content, i)
    ensures content == a.source
  {
    var l := a.spec.layout;
    forall i | 0 <= i < l.count
      ensures l.Slice(content, i) == l.Slice(a.source, i)
    {
      assert a.spec.Holds(content, i) && a.spec.Holds(a.source, i);
      assert a.spec.Apart(i, l.Slice(content, i), l.Slice(a.source, i));
    }
    EqualChunksEqualFiles(l, content, a.source);
  }

  lemma NonEmptyHasChunks(spec: Spec)
    requires spec.Valid() && spec.layout.fileSize > 0
    ensures spec.layout.count > 0
  {
  }

  lemma CompletedHolds(spec: Spec, s: State)
    requires spec.Valid() && CrashSafety.Inv(spec, s) && s.completed
    ensures forall i: nat :: i < spec.layout.count ==> spec.Holds(s.durable, i) && spec.Holds(s.cache, i)
  {
    hide SessionInv, RecordGood, Spec.Holds;
    forall i: nat | i < spec.layout.count
      ensures spec.Holds(s.durable, i) && spec.Holds(s.cache, i)
    {
      assert Safe(spec, s, i);
    }
  }

  lemma CompletedIsSource(a: Accepted, s: State)
    requires a.Valid() && a.spec.Valid() && CrashSafety.Inv(a.spec, s) && s.completed && a.spec.layout.fileSize > 0
    requires a.Apart(s)
    ensures s.durable == a.source && s.cache == a.source
  {
    hide Accepted.Valid, CrashSafety.Inv, ChunkLayout.Slice, Spec.Valid, ImagesApart;
    var l := a.spec.layout;
    NonEmptyHasChunks(a.spec);
    CompletedHolds(a.spec, s);
    assert a.spec.Holds(s.durable, 0) && a.spec.Holds(s.cache, 0);
    AllChunksIsSource(a, s.durable);
    AllChunksIsSource(a, s.cache);
  }

  /** End-to-end correctness. Over every run, through any number of sessions, kills and power
      losses: from the moment Complete is sent, and so whenever the sender has returned Ok, every
      accepted non-empty file equals its source byte for byte, both as read and as it would be
      found after a power loss. */
  lemma EndToEnd(offer: seq<Accepted>, worlds: seq<World>, events: seq<Event>, k: nat, f: nat)
    requires AllAccepted(offer) && IsRun(offer, worlds, events) && k < |worlds| && f < |offer|
    requires NoCollisions(offer, worlds, k) && (f < |worlds[k].files| ==> offer[f].Apart(worlds[k].files[f]))
    requires worlds[k].completeSent || worlds[k].senderOk
    requires offer[f].spec.layout.fileSize > 0
    ensures f < |worlds[k].files|
    ensures worlds[k].files[f].durable == offer[f].source
    ensures worlds[k].files[f].cache == offer[f].source
  {
    hide Next, IsRun, CrashSafety.Inv, CrashSafety.NoCollision, Accepted.Valid, Accepted.Apart;
    RunKeepsInv(offer, worlds, events, k);
    ValidSpec(offer, f);
    assert FileInv(offer, worlds[k], f);
    CompletedIsSource(offer[f], worlds[k].files[f]);
  }
}
