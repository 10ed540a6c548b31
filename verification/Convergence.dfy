// Where every chunk is during an undisturbed transfer, and why the transfer ends:
// conservation, a measure that falls on every step, and what a stuck state looks like.

module Convergence {
  import opened Base
  import opened Wire
  import opened Drain
  import opened RoundTrip
  import opened Pipeline
  import WorkQueue

  // ----- conservation ---------------------------------------------------------------------------

  /** The chunks a stream is responsible for: on its route, or whole at its receiver. */
  ghost function Carried(t: Stream): multiset<Write> {
    multiset(t.route) + (if t.receiver.Full? then multiset{t.receiver.chunk} else multiset{})
  }

  ghost function AllCarried(streams: seq<Stream>): multiset<Write> {
    if streams == [] then multiset{} else Carried(streams[0]) + AllCarried(streams[1..])
  }

  lemma {:induction false} CarriedUpdate(streams: seq<Stream>, k: nat, t: Stream)
    requires k < |streams|
    ensures AllCarried(streams[k := t]) + Carried(streams[k]) == AllCarried(streams) + Carried(t)
  {
    hide Carried;
    if k == 0 {
      assert streams[k := t][1..] == streams[1..];
    } else {
      CarriedUpdate(streams[1..], k - 1, t);
      assert streams[k := t][1..] == streams[1..][k - 1 := t];
      Regrouped(Carried(streams[0]), AllCarried(streams[1..]), AllCarried(streams[1..][k - 1 := t]),
        Carried(streams[k]), Carried(t));
    }
  }

  lemma Regrouped(a: multiset<Write>, b: multiset<Write>, b': multiset<Write>, c: multiset<Write>, c': multiset<Write>)
    requires b' + c == b + c'
    ensures (a + b') + c == (a + b) + c'
  {
    forall w
      ensures ((a + b') + c)[w] == ((a + b) + c')[w]
    {
      assert (b' + c)[w] == (b + c')[w];
    }
  }

  /** If queue, stream and record balance, replacing the stream's share of the total keeps the total. */
  lemma Rebalanced(q: multiset<Write>, a: multiset<Write>, c: multiset<Write>, r: multiset<Write>,
                   q': multiset<Write>, a': multiset<Write>, c': multiset<Write>, r': multiset<Write>)
    requires q + c + r == q' + c' + r' && a' + c == a + c'
    ensures q' + a' + r' == q + a + r
  {
    forall w
      ensures (q' + a' + r')[w] == (q + a + r)[w]
    {
      assert (q + c + r)[w] == (q' + c' + r')[w] && (a' + c)[w] == (a + c')[w];
    }
  }

  /** Each chunk of the job is queued, carried by one stream, or recorded, as often as it was listed. */
  ghost predicate Conserved(jobs: seq<Write>, s: State) {
    multiset(s.queue) + AllCarried(s.streams) + s.recorded == multiset(jobs)
  }

  lemma HeadMoves(ws: seq<Write>)
    requires ws != []
    ensures multiset(ws) == multiset{ws[0]} + multiset(ws[1..])
  {
    assert ws == [ws[0]] + ws[1..];
  }

  /** What a step takes from the queue and adds to the record is what it adds to and takes from its stream. */
  lemma StreamBalance(link: Link, s: State, s': State, step: Pipeline.Step)
    requires link.Valid() && Inv(link, s) && Next(link, s, s', step)
    ensures multiset(s.queue) + Carried(s.streams[step.k]) + s.recorded
         == multiset(s'.queue) + Carried(s'.streams[step.k]) + s'.recorded
  {
    hide SendStep, DeliverStep, Carried, StreamInv, Good;
    var t, t' := s.streams[step.k], s'.streams[step.k];
    match step {
      case Pop(_) => PopBalance(s.queue, t, t', s.recorded);
      case Deliver(_) => DeliverBalance(link, t, t');
      case Mark(_) => MarkBalance(t, t', multiset(s.queue), s.recorded);
      case _ => SameShare(link, s, s', step);
    }
  }

  lemma PopBalance(q: seq<Write>, t: Stream, t': Stream, r: multiset<Write>)
    requires q != [] && t'.receiver == t.receiver && t'.route == t.route + [q[0]]
    ensures multiset(q) + Carried(t) + r == multiset(q[1..]) + Carried(t') + r
  {
    HeadMoves(q);
  }

  lemma DeliverBalance(link: Link, t: Stream, t': Stream)
    requires link.Valid() && StreamInv(link, t) && DeliverStep(link, t, t')
    ensures Carried(t') == Carried(t)
  {
    hide OnData, CurrentOk, StreamInv, Sendable;
    NextFrame(link, t);
    HeadMoves(t.route);
  }

  lemma MarkBalance(t: Stream, t': Stream, q: multiset<Write>, r: multiset<Write>)
    requires t.receiver.Full? && t' == t.(receiver := Open(Between))
    ensures q + Carried(t) + r == q + Carried(t') + (r + multiset{t.receiver.chunk})
  {
  }

  lemma SameShare(link: Link, s: State, s': State, step: Pipeline.Step)
    requires link.Valid() && Next(link, s, s', step) && (step.SendFrame? || step.Close? || step.Finish?)
    ensures Carried(s'.streams[step.k]) == Carried(s.streams[step.k])
  {
    hide OnData, CurrentOk, DataFrame;
  }

  lemma NextConserves(link: Link, jobs: seq<Write>, s: State, s': State, step: Pipeline.Step)
    requires link.Valid() && Inv(link, s) && Next(link, s, s', step) && Conserved(jobs, s)
    ensures Conserved(jobs, s')
  {
    hide Inv, SendStep, DeliverStep, Carried;
    StreamBalance(link, s, s', step);
    CarriedUpdate(s.streams, step.k, s'.streams[step.k]);
    Rebalanced(multiset(s.queue), AllCarried(s.streams), Carried(s.streams[step.k]), s.recorded,
               multiset(s'.queue), AllCarried(s'.streams), Carried(s'.streams[step.k]), s'.recorded);
  }

  lemma {:induction false} IdleCarriesNothing(streams: seq<Stream>)
    requires forall k :: 0 <= k < |streams| ==> streams[k] == IDLE
    ensures AllCarried(streams) == multiset{}
  {
    if streams != [] { IdleCarriesNothing(streams[1..]); }
  }

  /** Conservation: at every step of every run each chunk is in exactly one place. */
  lemma {:induction false} RunConserves(link: Link, jobs: seq<Write>, states: seq<State>, steps: seq<Pipeline.Step>,
                                        i: nat)
    requires link.Valid() && AllGood(link, jobs) && IsRun(link, jobs, states, steps) && i < |states|
    ensures Conserved(jobs, states[i])
  {
    hide Inv, Next, AllGood, Conserved;
    if i == 0 {
      InitConserves(link, jobs, states[0]);
    } else {
      RunConserves(link, jobs, states, steps, i - 1);
      RunKeepsInv(link, jobs, states, steps, i - 1);
      NextConserves(link, jobs, states[i - 1], states[i], steps[i - 1]);
    }
  }

  lemma InitConserves(link: Link, jobs: seq<Write>, s: State)
    requires Init(link, jobs, s)
    ensures Conserved(jobs, s)
  {
    IdleCarriesNothing(s.streams);
  }

  // ----- the five places ----------------------------------------------------------------------------

  /** Chunk `j` of a stream's route is in the sender's hand: frames of it are still to go out. */
  predicate AtSender(t: Stream, j: nat) {
    t.sender.Sending? && j + 1 == |t.route|
  }

  /** Frame `f` carries the last byte of chunk `w`. */
  ghost predicate Ends(link: Link, f: Frame, w: Write)
    requires Good(link, w)
  {
    f.header.fileId == w.fileId && f.header.offset + |f.payload|
      == link.files[w.fileId].layout.Start(w.index) + |w.bytes|
  }

  ghost predicate SomeEnds(link: Link, frames: seq<Frame>, w: Write)
    requires Good(link, w)
  {
    exists i :: 0 <= i < |frames| && Ends(link, frames[i], w)
  }

  lemma SomeEndsConcat(link: Link, a: seq<Frame>, b: seq<Frame>, w: Write)
    requires Good(link, w) && (SomeEnds(link, a, w) || SomeEnds(link, b, w))
    ensures SomeEnds(link, a + b, w)
  {
    hide Good, Ends;
    if SomeEnds(link, a, w) {
      var i :| 0 <= i < |a| && Ends(link, a[i], w);
      assert Ends(link, (a + b)[i], w);
    } else {
      var i :| 0 <= i < |b| && Ends(link, b[i], w);
      assert Ends(link, (a + b)[|a| + i], w);
    }
  }

  lemma {:induction false} FramesHaveEnd(link: Link, w: Write, got: nat)
    requires link.Valid() && Good(link, w) && got < |w.bytes|
    ensures SomeEnds(link, FramesFrom(link, w, got), w)
    decreases |w.bytes| - got
  {
    hide Good, FramesFrom;
    FramesUnfold(link, w, got);
    var n := Min(link.frameSize, |w.bytes| - got);
    if got + n < |w.bytes| {
      FramesHaveEnd(link, w, got + n);
      var f := FramesFrom(link, w, got)[0];
      SomeEndsConcat(link, [f], FramesFrom(link, w, got + n), w);
    } else {
      assert Ends(link, FramesFrom(link, w, got)[0], w);
    }
  }

  lemma {:induction false} RouteHasEnd(link: Link, route: seq<Write>, got: nat, j: nat)
    requires link.Valid() && AllGood(link, route) && j < |route| && got < |route[0].bytes|
    ensures Good(link, route[j]) && SomeEnds(link, RouteFrames(link, route, got), route[j])
    decreases j
  {
    hide Sendable, FramesFrom, SomeEnds;
    var tail := RouteFrames(link, route[1..], 0);
    if j == 0 {
      FramesHaveEnd(link, route[0], got);
    } else {
      GoodHasBytes(link, route[1]);
      RouteHasEnd(link, route[1..], 0, j - 1);
    }
    SomeEndsConcat(link, FramesFrom(link, route[0], got), tail, route[j]);
  }

  /** A shorter remainder needs no more frames. */
  lemma {:induction false} FewerBytesFewerFrames(link: Link, w: Write, from: nat, got: nat)
    requires link.Valid() && Good(link, w) && from <= got <= |w.bytes|
    ensures |FramesFrom(link, w, got)| <= |FramesFrom(link, w, from)|
    decreases |w.bytes| - got
  {
    hide Good, FramesFrom;
    if got < |w.bytes| {
      FramesUnfold(link, w, from);
      FramesUnfold(link, w, got);
      FewerBytesFewerFrames(link, w, from + Min(link.frameSize, |w.bytes| - from),
        got + Min(link.frameSize, |w.bytes| - got));
    } else {
      NoFramesAtEnd(link, w);
    }
  }

  /** A chunk on a route is at the sender with bytes still to go, or its last frame is in the channel. */
  lemma RouteIsSenderOrChannel(link: Link, t: Stream, j: nat)
    requires link.Valid() && StreamInv(link, t) && j < |t.route|
    ensures Good(link, t.route[j])
    ensures if AtSender(t, j) then t.sender.chunk == t.route[j] && t.sender.rest != []
            else SomeEnds(link, t.channel, t.route[j])
  {
    hide Sendable, FramesFrom, CurrentOk, Ends, At;
    if !AtSender(t, j) {
      if t.sender.Sending? {
        var front := t.route[..|t.route| - 1];
        assert t.route == front + [t.sender.chunk] && t.route[j] == front[j];
        RouteFramesPush(link, front, Got(t), t.sender.chunk);
        RouteHasEnd(link, front, Got(t), j);
        FewerBytesFewerFrames(link, t.sender.chunk, 0, |t.sender.chunk.bytes| - |t.sender.rest|);
        PrefixHasEnd(link, t.channel, ToEmit(link, t.sender), RouteFrames(link, front, Got(t)),
                     FramesFrom(link, t.sender.chunk, 0), t.route[j]);
      } else {
        RouteHasEnd(link, t.route, Got(t), j);
        assert t.channel + [] == t.channel;
      }
    }
  }

  lemma PrefixHasEnd(link: Link, a: seq<Frame>, b: seq<Frame>, c: seq<Frame>, d: seq<Frame>, w: Write)
    requires Good(link, w) && a + b == c + d && |b| <= |d| && SomeEnds(link, c, w)
    ensures SomeEnds(link, a, w)
  {
    hide Good, Ends;
    var i :| 0 <= i < |c| && Ends(link, c[i], w);
    assert (a + b)[i] == a[i] && (c + d)[i] == c[i];
  }

  // ----- the measure ------------------------------------------------------------------------------------

  ghost function QueueMeasure(q: seq<Write>): nat {
    if q == [] then 0 else 2 * |q[0].bytes| + 2 + QueueMeasure(q[1..])
  }

  ghost function ChannelMeasure(frames: seq<Frame>): nat {
    if frames == [] then 0 else |frames[0].payload| + ChannelMeasure(frames[1..])
  }

  ghost function StreamMeasure(t: Stream): nat {
    |t.route| + (if t.sender.Sending? then 2 * |t.sender.rest| else 0) + ChannelMeasure(t.channel)
    + (if t.receiver.Full? then 1 else 0) + (if t.sender.Closed? then 0 else 1)
    + (if t.receiver.Done? || t.receiver.Failed? then 0 else 1)
  }

  ghost function StreamsMeasure(streams: seq<Stream>): nat {
    if streams == [] then 0 else StreamMeasure(streams[0]) + StreamsMeasure(streams[1..])
  }

  /** What is left to do: twice the bytes not yet on the wire, once those on it, and one for every
      chunk to pop, chunk to record, and stream end to close. */
  ghost function Measure(s: State): nat { QueueMeasure(s.queue) + StreamsMeasure(s.streams) }

  lemma {:induction false} MeasureUpdate(streams: seq<Stream>, k: nat, t: Stream)
    requires k < |streams|
    ensures StreamsMeasure(streams[k := t]) + StreamMeasure(streams[k]) == StreamsMeasure(streams) + StreamMeasure(t)
  {
    hide StreamMeasure;
    if k == 0 {
      assert streams[k := t][1..] == streams[1..];
    } else {
      MeasureUpdate(streams[1..], k - 1, t);
      assert streams[k := t][1..] == streams[1..][k - 1 := t];
    }
  }

  lemma {:induction false} ChannelPush(frames: seq<Frame>, f: Frame)
    ensures ChannelMeasure(frames + [f]) == ChannelMeasure(frames) + |f.payload|
  {
    if frames == [] {
      assert frames + [f] == [f] && [f][1..] == [];
    } else {
      ChannelPush(frames[1..], f);
      assert (frames + [f])[1..] == frames[1..] + [f];
    }
  }

  lemma StreamFalls(link: Link, s: State, s': State, step: Pipeline.Step)
    requires link.Valid() && Inv(link, s) && Next(link, s, s', step)
    ensures QueueMeasure(s'.queue) + StreamMeasure(s'.streams[step.k])
      < QueueMeasure(s.queue) + StreamMeasure(s.streams[step.k])
  {
    hide OnData, CurrentOk, StreamInv, Good;
    var t, t' := s.streams[step.k], s'.streams[step.k];
    match step {
      case SendFrame(_) => ChannelPush(t.channel, t'.channel[|t.channel|]);
      case Deliver(_) => NextFrame(link, t);
      case _ =>
    }
  }

  /** The measure falls on every step. */
  lemma MeasureFalls(link: Link, s: State, s': State, step: Pipeline.Step)
    requires link.Valid() && Inv(link, s) && Next(link, s, s', step)
    ensures Measure(s') < Measure(s)
  {
    hide Inv, StreamMeasure, QueueMeasure;
    StreamFalls(link, s, s', step);
    MeasureUpdate(s.streams, step.k, s'.streams[step.k]);
  }

  /** So no run is longer than the measure of its first state. */
  lemma {:induction false} RunsAreBounded(link: Link, jobs: seq<Write>, states: seq<State>, steps: seq<Pipeline.Step>,
                                          i: nat)
    requires link.Valid() && AllGood(link, jobs) && IsRun(link, jobs, states, steps) && i <= |steps|
    ensures i + Measure(states[i]) <= Measure(states[0])
  {
    hide Inv, Next, Init, AllGood, Measure;
    if i > 0 {
      RunsAreBounded(link, jobs, states, steps, i - 1);
      RunKeepsInv(link, jobs, states, steps, i - 1);
      MeasureFalls(link, states[i - 1], states[i], steps[i - 1]);
    }
  }

  // ----- stuck states ---------------------------------------------------------------------------------------

  ghost predicate Stuck(link: Link, s: State)
    requires link.Valid()
  {
    forall s', step :: !Next(link, s, s', step)
  }

  /** Every stream has been closed at both ends with nothing left on it. */
  ghost predicate Quiet(t: Stream) {
    t.sender.Closed? && t.channel == [] && t.receiver.Done? && t.route == []
  }

  /** A stream that is not quiet can move. */
  lemma NotQuietMoves(link: Link, s: State, k: nat) returns (s': State, step: Pipeline.Step)
    requires link.Valid() && Inv(link, s) && k < |s.streams| && !Quiet(s.streams[k])
    ensures Next(link, s, s', step)
  {
    hide OnData, CurrentOk, Good, DataFrame, RouteFrames, FramesFrom;
    var t := s.streams[k];
    var t';
    DoneMeansClosed(link, t);
    if t.receiver.Full? {
      t' := t.(receiver := Open(Between));
      step := Mark(k);
      s' := s.(streams := s.streams[k := t'], recorded := s.recorded + multiset{t.receiver.chunk},
              counter := s.counter + |t.receiver.chunk.bytes|);
    } else if t.channel != [] {
      t' := Delivered(link, t);
      step := Deliver(k);
      s' := s.(streams := s.streams[k := t']);
    } else if t.sender.Sending? {
      t' := Emitted(link, t);
      step := SendFrame(k);
      s' := s.(streams := s.streams[k := t']);
    } else if t.sender.Free? && s.queue != [] {
      t' := t.(sender := Sending(s.queue[0], s.queue[0].bytes), route := t.route + [s.queue[0]]);
      step := Pop(k);
      s' := s.(streams := s.streams[k := t'], queue := s.queue[1..]);
    } else if t.sender.Free? {
      t' := t.(sender := Closed);
      step := Close(k);
      s' := s.(streams := s.streams[k := t']);
    } else {
      DrainedRouteIsEmpty(link, t);
      t' := t.(receiver := Done);
      step := Finish(k);
      s' := s.(streams := s.streams[k := t']);
    }
  }

  lemma Delivered(link: Link, t: Stream) returns (t': Stream)
    requires link.Valid() && StreamInv(link, t) && t.channel != [] && !t.receiver.Full?
    ensures DeliverStep(link, t, t')
  {
    hide OnData, CurrentOk, Sendable, FramesFrom, RouteFrames;
    NextFrame(link, t);
    match OnData(link.H, link.files, t.receiver.cur, t.channel[0]) {
      case More(cur) => t' := t.(channel := t.channel[1..], receiver := Open(cur));
      case Landed(w) => t' := t.(channel := t.channel[1..], receiver := Full(w), route := t.route[1..]);
    }
  }

  lemma Emitted(link: Link, t: Stream) returns (t': Stream)
    requires link.Valid() && StreamInv(link, t) && t.channel == [] && t.sender.Sending?
    ensures SendStep(link, t, t')
  {
    hide CurrentOk, Sendable, FramesFrom, RouteFrames, DataFrame;
    var w, rest := t.sender.chunk, t.sender.rest;
    GoodHasBytes(link, w);
    FramesUnfold(link, w, |w.bytes| - |rest|);
    var n := Min(link.frameSize, |rest|);
    var at := link.files[w.fileId].layout.Start(w.index) + |w.bytes| - |rest|;
    t' := t.(channel := t.channel + [DataFrame(w.fileId, at, rest[..n])],
             sender := if n == |rest| then Free else Sending(w, rest[n..]));
  }

  lemma {:induction false} QuietCarriesNothing(streams: seq<Stream>)
    requires forall k :: 0 <= k < |streams| ==> Quiet(streams[k])
    ensures AllCarried(streams) == multiset{}
  {
    if streams != [] { QuietCarriesNothing(streams[1..]); }
  }

  /** A state in which nothing can move has every stream closed and every chunk recorded, each as
      often as it was listed. */
  lemma StuckMeansDelivered(link: Link, jobs: seq<Write>, states: seq<State>, steps: seq<Pipeline.Step>, i: nat)
    requires link.Valid() && AllGood(link, jobs) && IsRun(link, jobs, states, steps) && i < |states|
    requires |states[i].streams| > 0 && Stuck(link, states[i])
    ensures forall k :: 0 <= k < |states[i].streams| ==> Quiet(states[i].streams[k])
    ensures states[i].queue == [] && states[i].recorded == multiset(jobs)
  {
    hide Next, Init, StreamInv, AllGood;
    var s := states[i];
    RunKeepsInv(link, jobs, states, steps, i);
    RunConserves(link, jobs, states, steps, i);
    forall k | 0 <= k < |s.streams|
      ensures Quiet(s.streams[k])
    {
      if !Quiet(s.streams[k]) {
        var s', step := NotQuietMoves(link, s, k);
      }
    }
    assert Quiet(s.streams[0]);
    QuietCarriesNothing(s.streams);
  }

  // ----- from the queue to the bitmaps -------------------------------------------------------------------------

  /** The job is the sender's work queue: item for item the chunk it names. */
  ghost predicate JobOf(items: seq<WorkQueue.WorkItem>, jobs: seq<Write>) {
    && |jobs| == |items|
    && forall i :: 0 <= i < |jobs| ==> jobs[i].fileId == items[i].fileIndex && jobs[i].index == items[i].chunkIndex
  }

  lemma {:induction false} DistinctListedOnce(ws: seq<Write>, i: nat)
    requires i < |ws| && forall j, k :: 0 <= j < k < |ws| ==> ws[j] != ws[k]
    ensures multiset(ws)[ws[i]] == 1
    decreases |ws|
  {
    var n := |ws| - 1;
    var front := ws[..n];
    assert ws == front + [ws[n]];
    if i < n {
      assert front[i] == ws[i];
      DistinctListedOnce(front, i);
    } else {
      assert ws[n] !in front;
    }
  }

  /** Every chunk that is wanted is at every step counted once: in the queue, on one stream, or in
      the record. */
  lemma EveryChunkCountedOnce(link: Link, items: seq<WorkQueue.WorkItem>, jobs: seq<Write>,
                              states: seq<State>, steps: seq<Pipeline.Step>, i: nat, j: nat)
    requires link.Valid() && AllGood(link, jobs) && IsRun(link, jobs, states, steps) && i < |states|
    requires WorkQueue.Ordered(items) && JobOf(items, jobs) && j < |jobs|
    ensures
      var s, w := states[i], jobs[j];
      multiset(s.queue)[w] + AllCarried(s.streams)[w] + s.recorded[w] == 1
  {
    hide Next, Init, AllGood, AllCarried;
    RunConserves(link, jobs, states, steps, i);
    forall a, b | 0 <= a < b < |jobs|
      ensures jobs[a] != jobs[b]
    {
      assert WorkQueue.Before(items[a], items[b]);
    }
    DistinctListedOnce(jobs, j);
    var s := states[i];
    assert (multiset(s.queue) + AllCarried(s.streams) + s.recorded)[jobs[j]] == 1;
  }

  /** A chunk of a file is held from before or recorded in this session. */
  ghost predicate BitSet(held: set<nat>, recorded: multiset<Write>, f: nat, c: nat) {
    c in held || exists w :: w in recorded && w.fileId == f && w.index == c
  }

  /** A run that starts from the queue the sender builds can only stop with every chunk of every
      accepted file held from before or recorded. */
  lemma StuckMeansAllSet(link: Link, offered: seq<WorkQueue.Offered>, held: seq<Option<set<nat>>>, jobs: seq<Write>,
                           states: seq<State>, steps: seq<Pipeline.Step>, i: nat, f: nat, c: nat)
    requires link.Valid() && AllGood(link, jobs) && IsRun(link, jobs, states, steps) && i < |states|
    requires |states[i].streams| > 0 && Stuck(link, states[i])
    requires |offered| == |held| && JobOf(WorkQueue.Queue(offered, held), jobs)
    requires f < |held| && held[f].Some? && c < offered[f].layout.count
    ensures BitSet(held[f].value, states[i].recorded, f, c)
  {
    hide Next, Init, AllGood, Stuck, WorkQueue.Queue, WorkQueue.Ordered;
    StuckMeansDelivered(link, jobs, states, steps, i);
    if c !in held[f].value {
      var items := WorkQueue.Queue(offered, held);
      WorkQueue.QueueExact(offered, held);
      var x := WorkQueue.WorkItem(f, c);
      assert x in items;
      var j :| 0 <= j < |items| && items[j] == x;
      assert jobs[j] in multiset(jobs);
    }
  }
}
