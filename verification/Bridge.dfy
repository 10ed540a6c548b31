// Where the models meet: what a stream delivers (`Drain`), what the crash-safe receiver takes
// in (`Receiver`), and what an undisturbed transfer records (`Pipeline`) are the same chunks,
// the same writes and the same bits.

module Bridge {
  import opened Base
  import opened Layout
  import opened Bitmaps
  import opened Drain
  import opened Pipeline
  import opened Convergence
  import Receiver
  import CrashSafety
  import WorkQueue

  // ----- bitmaps --------------------------------------------------------------------------------

  /** The bitmap of file `f` after the chunks of `order` have been marked, one after the other. */
  ghost function MarkAll(v: Bitmap, order: seq<Write>, f: u64): (u: Bitmap)
    requires v.Valid()
    ensures u.Valid() && u.count == v.count
  {
    if order == [] then v
    else
      var u, w := MarkAll(v, order[..|order| - 1], f), order[|order| - 1];
      if w.fileId == f && w.index < u.count then
        WithBitAddsMember(u, w.index);
        WithBit(u, w.index)
      else u
  }

  lemma {:induction false} MarkAllMembers(v: Bitmap, order: seq<Write>, f: u64, i: u64)
    requires v.Valid() && i < v.count
    ensures i in MarkAll(v, order, f).Members() <==> i in v.Members() || Names(order, f, i)
    decreases |order|
  {
    hide WithBit, Bitmap.Members, Bitmap.PaddingClear, Names;
    if order == [] {
      NamesNothing(f, i);
    } else {
      var w, front := order[|order| - 1], order[..|order| - 1];
      MarkAllMembers(v, front, f, i);
      NamesLast(order, f, i);
      var u := MarkAll(v, front, f);
      if w.fileId == f && w.index < u.count { WithBitAddsMember(u, w.index); }
    }
  }

  lemma NamesNothing(f: u64, i: u64)
    ensures !Names([], f, i)
  {
  }

  /** Convergence: a run that starts from the queue the sender builds can only stop with the bitmap of
      every accepted file complete, in whatever order its chunks were marked. */
  lemma StuckMeansComplete(link: Link, offered: seq<WorkQueue.Offered>, held: seq<Option<set<nat>>>, jobs: seq<Write>,
                           states: seq<State>, steps: seq<Pipeline.Step>, i: nat, f: u64, opening: Bitmap,
                           order: seq<Write>)
    requires link.Valid() && AllGood(link, jobs) && IsRun(link, jobs, states, steps) && i < |states|
    requires |states[i].streams| > 0 && Stuck(link, states[i])
    requires |offered| == |held| && JobOf(WorkQueue.Queue(offered, held), jobs)
    requires f < |held| && opening.Valid() && opening.count == offered[f].layout.count
      && held[f] == Some(opening.Members())
    requires multiset(order) == states[i].recorded
    ensures MarkAll(opening, order, f).IsComplete()
  {
    hide IsRun, AllGood, Stuck, WorkQueue.Queue, JobOf, Bitmap.Members, Bitmap.PaddingClear, MarkAll, Bitmap.IsComplete;
    var u := MarkAll(opening, order, f);
    forall c: nat | c < u.count
      ensures c in u.Members()
    {
      StuckMeansAllSet(link, offered, held, jobs, states, steps, i, f, c);
      MarkAllMembers(opening, order, f, c);
      if c !in opening.Members() {
        var w :| w in states[i].recorded && w.fileId == f && w.index == c;
        assert w in order;
      }
    }
    CompleteIffAllSet(u);
  }

  // ----- chunks ----------------------------------------------------------------------------------

  /** File `id` of the stream's targets is the file of this specification. */
  ghost predicate SameFile(files: Targets, id: u64, spec: Receiver.Spec) {
    id in files && files[id] == Target(spec.layout, spec.hashes)
  }

  /** What a stream may write is exactly what the crash-safe receiver takes in. */
  lemma CommittedIffVerified(files: Targets, spec: Receiver.Spec, w: Write)
    requires spec.Valid() && SameFile(files, w.fileId, spec)
    ensures Committed(spec.H, files, w) <==> spec.Verified(w.index, w.bytes)
  {
  }

  /** In every undisturbed run, every chunk recorded is a verified chunk of its file. */
  lemma RecordedIsVerified(link: Link, spec: Receiver.Spec, jobs: seq<Write>, states: seq<State>,
                           steps: seq<Pipeline.Step>, i: nat, w: Write)
    requires link.Valid() && AllGood(link, jobs) && IsRun(link, jobs, states, steps) && i < |states|
    requires w in states[i].recorded && spec.Valid() && spec.H == link.H && SameFile(link.files, w.fileId, spec)
    ensures spec.Verified(w.index, w.bytes)
  {
    hide IsRun, AllCarried, Receiver.Spec.Verified, Good, SameFile;
    RunConserves(link, jobs, states, steps, i);
    assert multiset(jobs)[w] > 0;
    var j :| 0 <= j < |jobs| && jobs[j] == w;
    GoodHasBytes(link, w);
    CommittedIffVerified(link.files, spec, w);
  }

  // ----- writes ----------------------------------------------------------------------------------

  /** Replaying one write of a stream is three steps of a worker of the crash-safe receiver: it takes the
      chunk, writes it and marks it, and ends with the same file content and the same bits. */
  lemma WriteIsThreeSteps(files: Targets, spec: Receiver.Spec, disk: Disk, marks: Marks, write: Write,
                          s: Receiver.State, k: nat)
    returns (s1: Receiver.State, s2: Receiver.State, s3: Receiver.State)
    requires spec.Valid() && SameFile(files, write.fileId, spec) && Committed(spec.H, files, write)
    requires s.session.Some? && k < |s.session.value.workers| && s.session.value.workers[k] == Receiver.Idle
    requires s.session.value.finish == Receiver.NotYet && CrashSafety.Fits(spec, s.session.value.bitmap)
    requires write.fileId in disk && disk[write.fileId] == s.cache && |s.cache| == spec.layout.fileSize
    requires write.fileId in marks && marks[write.fileId] == s.session.value.bitmap.Members()
    ensures Receiver.Next(spec, s, s1, Receiver.Receive(k, write.index, write.bytes))
    ensures Receiver.Next(spec, s1, s2, Receiver.WriteEnd(k))
    ensures Receiver.Next(spec, s2, s3, Receiver.SetBit(k))
    ensures s3.cache == ApplyOne(files, disk, write)[write.fileId]
    ensures s3.session.Some? && s3.session.value.bitmap.Sized()
    ensures s3.session.value.bitmap.Members() == MarkOne(marks, write)[write.fileId]
  {
    hide Receiver.DiskStep, Bitmap.Members, Bitmap.PaddingClear, WithBit, Placed;
    CommittedIffVerified(files, spec, write);
    var ses := s.session.value;
    WithBitAddsMember(ses.bitmap, write.index);
    s1 := s.(session := Some(Receiver.Put(ses, k, Receiver.Writing(write.index, write.bytes))));
    var ses2 := Receiver.Put(s1.session.value, k, Receiver.Written(write.index));
    s2 := s1.(cache := Placed(spec.layout, s.cache, write.index, write.bytes), session := Some(ses2));
    var ses3 := Receiver.Put(ses2, k, Receiver.Marked(write.index));
    s3 := s2.(session := Some(ses3.(bitmap := WithBit(ses.bitmap, write.index))));
  }
}
