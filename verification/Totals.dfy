// The receiver's byte counter over a whole undisturbed transfer (aetherlink-core recv.rs):
// from the clamped seed to the value reported in Complete.

module Totals {
  import opened Base
  import opened Drain
  import opened Pipeline
  import opened Convergence
  import WorkQueue
  import Counters

  ghost function JobBytes(ws: seq<Write>): nat {
    if ws == [] then 0 else |ws[0].bytes| + JobBytes(ws[1..])
  }

  lemma {:induction false} JobBytesPush(ws: seq<Write>, w: Write)
    ensures JobBytes(ws + [w]) == JobBytes(ws) + |w.bytes|
  {
    if ws == [] {
      assert ws + [w] == [w] && [w][1..] == [];
    } else {
      JobBytesPush(ws[1..], w);
      assert (ws + [w])[1..] == ws[1..] + [w];
    }
  }

  /** The bytes a stream has taken on and not yet had counted. */
  ghost function StreamBytes(t: Stream): nat {
    JobBytes(t.route) + (if t.receiver.Full? then |t.receiver.chunk.bytes| else 0)
  }

  ghost function AllStreamBytes(streams: seq<Stream>): nat {
    if streams == [] then 0 else StreamBytes(streams[0]) + AllStreamBytes(streams[1..])
  }

  lemma {:induction false} StreamBytesUpdate(streams: seq<Stream>, k: nat, t: Stream)
    requires k < |streams|
    ensures AllStreamBytes(streams[k := t]) + StreamBytes(streams[k]) == AllStreamBytes(streams) + StreamBytes(t)
  {
    hide StreamBytes;
    if k == 0 {
      assert streams[k := t][1..] == streams[1..];
    } else {
      StreamBytesUpdate(streams[1..], k - 1, t);
      assert streams[k := t][1..] == streams[1..][k - 1 := t];
    }
  }

  /** Queued, carried and counted bytes. */
  ghost function Account(s: State): nat {
    JobBytes(s.queue) + AllStreamBytes(s.streams) + s.counter
  }

  lemma NextKeepsAccount(link: Link, s: State, s': State, step: Pipeline.Step)
    requires link.Valid() && Inv(link, s) && Next(link, s, s', step)
    ensures Account(s') == Account(s)
  {
    hide SendStep, DeliverStep, StreamInv, Good;
    var t, t' := s.streams[step.k], s'.streams[step.k];
    StreamBytesUpdate(s.streams, step.k, t');
    match step {
      case Pop(_) => JobBytesPush(t.route, s.queue[0]);
      case SendFrame(_) => SendKeepsBytes(link, t, t');
      case Deliver(_) => DeliverKeepsBytes(link, t, t');
      case _ =>
    }
  }

  lemma SendKeepsBytes(link: Link, t: Stream, t': Stream)
    requires SendStep(link, t, t')
    ensures StreamBytes(t') == StreamBytes(t)
  {
  }

  lemma DeliverKeepsBytes(link: Link, t: Stream, t': Stream)
    requires link.Valid() && StreamInv(link, t) && DeliverStep(link, t, t')
    ensures StreamBytes(t') == StreamBytes(t)
  {
    hide OnData, CurrentOk, StreamInv, Good;
    NextFrame(link, t);
  }

  lemma {:induction false} RunKeepsAccount(link: Link, jobs: seq<Write>, states: seq<State>,
                                           steps: seq<Pipeline.Step>, i: nat)
    requires link.Valid() && AllGood(link, jobs) && IsRun(link, jobs, states, steps) && i < |states|
    ensures Account(states[i]) == Account(states[0])
  {
    hide Inv, Next, Init, AllGood, Account;
    if i > 0 {
      RunKeepsAccount(link, jobs, states, steps, i - 1);
      RunKeepsInv(link, jobs, states, steps, i - 1);
      NextKeepsAccount(link, states[i - 1], states[i], steps[i - 1]);
    }
  }

  lemma {:induction false} EmptyStreams(streams: seq<Stream>)
    requires forall k :: 0 <= k < |streams| ==> streams[k].route == [] && !streams[k].receiver.Full?
    ensures AllStreamBytes(streams) == 0
  {
    if streams != [] { EmptyStreams(streams[1..]); }
  }

  /** Where nothing can move any more, the counter has grown by exactly the bytes of the job. */
  lemma CounterEndsAtJob(link: Link, jobs: seq<Write>, states: seq<State>, steps: seq<Pipeline.Step>, i: nat)
    requires link.Valid() && AllGood(link, jobs) && IsRun(link, jobs, states, steps) && i < |states|
    requires |states[i].streams| > 0 && Stuck(link, states[i])
    ensures states[i].counter == states[0].counter + JobBytes(jobs)
  {
    hide Next, AllGood, Stuck;
    RunKeepsAccount(link, jobs, states, steps, i);
    StuckMeansDelivered(link, jobs, states, steps, i);
    EmptyStreams(states[0].streams);
    EmptyStreams(states[i].streams);
  }

  // ----- the manifest's view -----------------------------------------------------------------------

  /** Both ends have the same geometry for every file. */
  ghost predicate SameLayouts(link: Link, offered: seq<WorkQueue.Offered>) {
    forall f :: 0 <= f < |offered| ==> f <= U64_MAX && f in link.files && link.files[f].layout == offered[f].layout
  }

  lemma {:induction false} JobWeighsItems(link: Link, offered: seq<WorkQueue.Offered>, items: seq<WorkQueue.WorkItem>,
                                          jobs: seq<Write>)
    requires AllGood(link, jobs) && JobOf(items, jobs) && SameLayouts(link, offered)
    requires forall i :: 0 <= i < |items| ==> items[i].fileIndex < |offered|
    ensures JobBytes(jobs) == WorkQueue.ItemBytes(offered, items)
    decreases |jobs|
  {
    hide Good, SameLayouts;
    if jobs != [] {
      var n := |jobs| - 1;
      assert jobs == jobs[..n] + [jobs[n]];
      JobBytesPush(jobs[..n], jobs[n]);
      JobWeighsItems(link, offered, items[..n], jobs[..n]);
      ItemWeight(link, offered, items[n], jobs[n]);
    }
  }

  lemma ItemWeight(link: Link, offered: seq<WorkQueue.Offered>, x: WorkQueue.WorkItem, w: Write)
    requires Good(link, w) && SameLayouts(link, offered) && x.fileIndex < |offered|
    requires w.fileId == x.fileIndex && w.index == x.chunkIndex
    ensures |w.bytes| == WorkQueue.Weight(offered, x)
  {
  }

  /** What the receiver resumed with, file by file, when it accepts every file of the offer. */
  ghost function ResumedFiles(offered: seq<WorkQueue.Offered>,
                              held: seq<Option<set<nat>>>): (files: seq<Counters.Resumed>)
    requires |offered| == |held| && forall f :: 0 <= f < |held| ==> held[f].Some?
    ensures |files| == |offered|
    ensures forall f :: 0 <= f < |files| ==> files[f] == Counters.Resumed(offered[f].layout, held[f].value)
  {
    seq(|offered|, f requires 0 <= f < |offered| => Counters.Resumed(offered[f].layout, held[f].value))
  }

  lemma {:induction false} TravelPush(files: seq<Counters.Resumed>, x: Counters.Resumed)
    requires Counters.AllValid(files) && x.layout.Valid() && Counters.AllValid(files + [x])
    ensures Counters.TravelBytes(files + [x])
      == Counters.TravelBytes(files) + WorkQueue.MissingBytes(x.held, x.layout, x.layout.count)
  {
    if files == [] {
      assert files + [x] == [x] && [x][1..] == [];
    } else {
      TravelPush(files[1..], x);
      assert (files + [x])[1..] == files[1..] + [x];
    }
  }

  lemma {:induction false} TravelIsSum(files: seq<Counters.Resumed>, bytes: seq<nat>, n: nat)
    requires Counters.AllValid(files) && n <= |files| == |bytes|
    requires forall f :: 0 <= f < |files| ==>
      bytes[f] == WorkQueue.MissingBytes(files[f].held, files[f].layout, files[f].layout.count)
    ensures Counters.AllValid(files[..n]) && Counters.TravelBytes(files[..n]) == WorkQueue.Sum(bytes, n)
  {
    if n > 0 {
      TravelIsSum(files, bytes, n - 1);
      assert files[..n] == files[..n - 1] + [files[n - 1]];
      TravelPush(files[..n - 1], files[n - 1]);
    }
  }

  lemma TravelIsQueueTotal(offered: seq<WorkQueue.Offered>, held: seq<Option<set<nat>>>)
    requires |offered| == |held| && WorkQueue.LayoutsValid(offered) && forall f :: 0 <= f < |held| ==> held[f].Some?
    ensures Counters.AllValid(ResumedFiles(offered, held))
    ensures Counters.TravelBytes(ResumedFiles(offered, held)) == WorkQueue.QueueTotal(offered, held)
  {
    var files := ResumedFiles(offered, held);
    TravelIsSum(files, WorkQueue.ByteLists(offered, held), |files|);
    assert files[..|files|] == files;
  }

  /** The count the receiver reports. In every undisturbed run of a session that accepted every file and
      seeded its counter as the source does, the counter ends at the manifest total or above, by at most
      the missing part of the short last chunks that were already held, and exactly there if none was. */
  lemma ReportedCountIsBounded(link: Link, offered: seq<WorkQueue.Offered>, held: seq<Option<set<nat>>>,
                               jobs: seq<Write>,
                               states: seq<State>, steps: seq<Pipeline.Step>, i: nat)
    requires link.Valid() && AllGood(link, jobs) && IsRun(link, jobs, states, steps) && i < |states|
    requires |states[i].streams| > 0 && Stuck(link, states[i])
    requires |offered| == |held| && WorkQueue.LayoutsValid(offered) && SameLayouts(link, offered)
    requires forall f :: 0 <= f < |held| ==> held[f].Some?
    requires JobOf(WorkQueue.Queue(offered, held), jobs)
    requires
      var files := ResumedFiles(offered, held);
      states[0].counter == Min(Counters.ResumedBytes(files), Counters.TotalBytes(files))
    ensures
      var files := ResumedFiles(offered, held);
      var total := Counters.TotalBytes(files);
      && Counters.AllValid(files)
      && total <= states[i].counter <= total + Counters.TotalOvershoot(files)
      && (Counters.TotalOvershoot(files) == 0 ==> states[i].counter == total)
  {
    hide Next, Init, IsRun, AllGood, Stuck, SameLayouts, WorkQueue.Queue, WorkQueue.QueueTotal, WorkQueue.Ordered,
      WorkQueue.Wanted;
    var items := WorkQueue.Queue(offered, held);
    CounterEndsAtJob(link, jobs, states, steps, i);
    WorkQueue.QueueExact(offered, held);
    assert forall k :: 0 <= k < |items| ==> items[k] in items;
    JobWeighsItems(link, offered, items, jobs);
    WorkQueue.QueueWeighsTotal(offered, held);
    TravelIsQueueTotal(offered, held);
    Counters.FinalCountBounds(ResumedFiles(offered, held));
  }
}
