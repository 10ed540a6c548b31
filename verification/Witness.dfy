// The theorems are not empty: for every file of one chunk, whatever it holds, there is a hash
// and a run in which a record is put in place, and one in which the sender returns Ok.

module Witness {
  import opened Base
  import opened Layout
  import opened Bitmaps
  import opened Receiver
  import opened Traces
  import CrashSafety
  import EndToEnd
  import Hashes

  /** If nothing collides with the one chunk, no state has a collision. */
  lemma NothingCollides(spec: Spec, s: State)
    requires spec.Valid() && spec.layout.count == 1 && forall a, b :: spec.Apart(0, a, b)
    ensures CrashSafety.NoCollision(spec, s)
  {
    hide ChunkLayout.Slice, Spec.Apart;
  }

  lemma ImagesDiffer(spec: Spec, a: seq<byte>, b: seq<byte>)
    requires spec.Valid() && spec.layout.count == 1 && forall x, y :: spec.Apart(0, x, y)
    ensures CrashSafety.ImagesApart(spec, a, b)
  {
    hide ChunkLayout.Slice, Spec.Apart;
  }

  /** A blank disk of the right size, no record, no session. */
  function Blank(n: nat): State {
    var zeros := seq(n, _ => 0 as byte);
    State(zeros, zeros, None, {}, false, None)
  }

  lemma OneChunkVerified(spec: Spec, content: seq<byte>)
    requires spec.Valid() && spec.layout.count == 1 && |content| == spec.layout.fileSize && spec.Holds(content, 0)
    ensures spec.Verified(0, content)
  {
    LenExact(spec.layout, 0);
    assert spec.layout.Slice(content, 0) == content;
  }

  /** For every one-chunk file and non-zero threshold, a run without collisions reaches a record in place
      that claims the chunk: what crash-safe resume speaks about happens. */
  lemma SomeRecordIsPlaced(l: ChunkLayout, content: seq<byte>, threshold: nat)
    returns (spec: Spec, t: Trace, v: Bitmap)
    requires l.Valid() && l.count == 1 && |content| == l.fileSize && threshold > 0
    ensures spec.Valid() && spec.layout == l && spec.Holds(content, 0) && t.Of(spec)
    ensures CrashSafety.NoCollisions(spec, t.states, |t.states|)
    ensures v in t.last.renamed && v.Sized() && 0 in v.Members()
  {
    hide IsRun, Bitmap.Members, CrashSafety.NoCollision, Spec.Verified, Spec.Holds, Spec.Apart;
    spec := Hashes.NoCollisionIsPossible(l, content, threshold);
    OneChunkVerified(spec, content);
    t, v := UntilRenamed(spec, Blank(l.fileSize), content);
    forall m | 0 <= m < |t.states|
      ensures CrashSafety.NoCollision(spec, t.states[m])
    {
      NothingCollides(spec, t.states[m]);
    }
  }

  // ----- a whole transfer --------------------------------------------------------------------------

  function World(s: State): EndToEnd.World { EndToEnd.World([s], false, false) }

  function Worlds(states: seq<State>): (ws: seq<EndToEnd.World>)
    ensures |ws| == |states| && forall k :: 0 <= k < |ws| ==> ws[k] == World(states[k])
  {
    seq(|states|, k requires 0 <= k < |states| => World(states[k]))
  }

  function Events(steps: seq<Step>): (es: seq<EndToEnd.Event>)
    ensures |es| == |steps| && forall k :: 0 <= k < |es| ==> es[k] == EndToEnd.OneFile(0, steps[k])
  {
    seq(|steps|, k requires 0 <= k < |steps| => EndToEnd.OneFile(0, steps[k]))
  }

  /** A run of the one file is a run of the transfer. */
  lemma Lifted(a: EndToEnd.Accepted, t: Trace)
    requires a.Valid() && a.spec.Valid() && t.Of(a.spec)
    ensures EndToEnd.AllAccepted([a]) && EndToEnd.IsRun([a], Worlds(t.states), Events(t.steps))
  {
    hide Receiver.Next, EndToEnd.Accepted.Valid;
    var ws, es := Worlds(t.states), Events(t.steps);
    forall k | 0 <= k < |es|
      ensures EndToEnd.Next([a], ws[k], ws[k + 1], es[k])
    {
      LiftedStep(a, t.states[k], t.states[k + 1], t.steps[k]);
    }
  }

  lemma LiftedStep(a: EndToEnd.Accepted, s: State, s': State, step: Step)
    requires a.Valid() && a.spec.Valid() && Receiver.Next(a.spec, s, s', step) && !step.Kill? && !step.PowerLoss?
    ensures EndToEnd.AllAccepted([a]) && EndToEnd.Next([a], World(s), World(s'), EndToEnd.OneFile(0, step))
  {
    hide Receiver.Next, EndToEnd.Accepted.Valid;
    assert [s][0 := s'] == [s'];
  }

  lemma ConfirmedIsNext(a: EndToEnd.Accepted, w: EndToEnd.World)
    requires a.Valid() && |w.files| == 1 && w.files[0].session.Some? && w.files[0].session.value.finish.Done?
    ensures EndToEnd.AllAccepted([a])
    ensures EndToEnd.Next([a], w, w.(completeSent := true), EndToEnd.SendComplete)
    ensures EndToEnd.Next([a], w.(completeSent := true), w.(completeSent := true, senderOk := true),
      EndToEnd.SenderReturns)
  {
    hide EndToEnd.Accepted.Valid;
  }

  lemma Prolonged(offer: seq<EndToEnd.Accepted>, ws: seq<EndToEnd.World>, es: seq<EndToEnd.Event>,
                  w: EndToEnd.World, e: EndToEnd.Event)
    requires EndToEnd.AllAccepted(offer) && EndToEnd.IsRun(offer, ws, es) && EndToEnd.Next(offer, ws[|es|], w, e)
    ensures EndToEnd.IsRun(offer, ws + [w], es + [e])
  {
    hide EndToEnd.Next, EndToEnd.Init, EndToEnd.AllAccepted;
    var ws', es' := ws + [w], es + [e];
    forall k | 0 <= k < |es'|
      ensures EndToEnd.Next(offer, ws'[k], ws'[k + 1], es'[k])
    {
      if k < |es| { assert ws'[k] == ws[k] && ws'[k + 1] == ws[k + 1]; }
    }
  }

  /** For every one-chunk file and every threshold, a run without collisions in which the sender returns
      Ok: what the end-to-end theorem speaks about happens. */
  lemma SomeTransferCompletes(l: ChunkLayout, content: seq<byte>, threshold: nat)
    returns (a: EndToEnd.Accepted, ws: seq<EndToEnd.World>, es: seq<EndToEnd.Event>)
    requires l.Valid() && l.count == 1 && |content| == l.fileSize
    ensures a.Valid() && a.spec.layout == l && a.source == content && EndToEnd.AllAccepted([a])
    ensures EndToEnd.IsRun([a], ws, es) && EndToEnd.NoCollisions([a], ws, |ws|)
    ensures ws != [] && ws[|ws| - 1].senderOk && |ws[|ws| - 1].files| == 1 && a.Apart(ws[|ws| - 1].files[0])
  {
    hide IsRun, EndToEnd.IsRun, EndToEnd.Next, CrashSafety.NoCollision, Spec.Verified, Spec.Holds, Spec.Apart;
    var spec := Hashes.NoCollisionIsPossible(l, content, threshold);
    OneChunkVerified(spec, content);
    a := EndToEnd.Accepted(spec, content);
    var t := UntilDone(spec, Blank(l.fileSize), content);
    Lifted(a, t);
    Shape(spec, t);
    ws, es := Worlds(t.states), Events(t.steps);
    var w := World(t.last);
    ConfirmedIsNext(a, w);
    Prolonged([a], ws, es, w.(completeSent := true), EndToEnd.SendComplete);
    ws, es := ws + [w.(completeSent := true)], es + [EndToEnd.SendComplete];
    Prolonged([a], ws, es, w.(completeSent := true, senderOk := true), EndToEnd.SenderReturns);
    ws, es := ws + [w.(completeSent := true, senderOk := true)], es + [EndToEnd.SenderReturns];
    forall m | 0 <= m < |ws|
      ensures EndToEnd.NoCollision([a], ws[m])
    {
      forall f | 0 <= f < 1 && f < |ws[m].files|
        ensures CrashSafety.NoCollision(spec, ws[m].files[f])
      {
        NothingCollides(spec, ws[m].files[f]);
      }
    }
    ImagesDiffer(spec, t.last.cache, content);
    ImagesDiffer(spec, t.last.durable, content);
  }
}
