// One undisturbed transfer, from the work queue to the bitmaps (aetherlink-core send.rs,
// recv.rs): N stream workers deal chunks and frame them onto N bounded FIFO channels, and
// N drain workers reassemble, verify and record them. Any stream may move next.

module Pipeline {
  import opened Base
  import opened Layout
  import opened Frames
  import opened Wire
  import opened Drain
  import opened RoundTrip

  /** What both ends agreed on, the sender's frame size, and how many frames a channel may hold. */
  datatype Link = Link(H: Hasher, files: Targets, frameSize: nat, capacity: nat) {
    ghost predicate Valid() { AllValid(files) && capacity > 0 }
  }

  datatype Sender = Free | Sending(chunk: Write, rest: seq<byte>) | Closed

  /** `Full` holds a chunk whose last frame has arrived and which is not recorded yet. */
  datatype Receiver = Open(cur: Current) | Full(chunk: Write) | Done | Failed

  /** `route` is history: the chunks this stream has popped that have not arrived whole, oldest first. */
  datatype Stream = Stream(sender: Sender, channel: seq<Frame>, receiver: Receiver, route: seq<Write>)

  /** `recorded` are the chunks written and marked, `counter` the receiver's byte counter. */
  datatype State = State(queue: seq<Write>, streams: seq<Stream>, recorded: multiset<Write>, counter: nat)

  datatype Step = Pop(k: nat) | SendFrame(k: nat) | Close(k: nat) | Deliver(k: nat) | Mark(k: nat) | Finish(k: nat)

  // ----- steps ------------------------------------------------------------------------------

  /** Emits the next frame of the chunk in hand; the worker is free again after the last. */
  ghost predicate SendStep(link: Link, t: Stream, t': Stream) {
    && t.sender.Sending? && t.sender.rest != [] && |t.channel| < link.capacity
    && var w, rest := t.sender.chunk, t.sender.rest;
       var n := Min(link.frameSize, |rest|);
       && w.fileId in link.files && |rest| <= |w.bytes|
       && var at := link.files[w.fileId].layout.Start(w.index) + |w.bytes| - |rest|;
       && 0 < n <= MAX_FRAME_PAYLOAD && at <= U64_MAX
       && t' == t.(channel := t.channel + [DataFrame(w.fileId, at, rest[..n])],
                   sender := if n == |rest| then Free else Sending(w, rest[n..]))
  }

  /** Takes one frame off the channel through the receiver's automaton. */
  ghost predicate DeliverStep(link: Link, t: Stream, t': Stream)
    requires link.Valid()
  {
    && t.receiver.Open? && CurrentOk(link.files, t.receiver.cur) && t.channel != []
    && match OnData(link.H, link.files, t.receiver.cur, t.channel[0])
       case Rejected(_) => t' == t.(channel := t.channel[1..], receiver := Failed)
       case More(cur) => t' == t.(channel := t.channel[1..], receiver := Open(cur))
       case Landed(w) => t' == t.(channel := t.channel[1..], receiver := Full(w),
                                  route := if t.route == [] then [] else t.route[1..])
  }

  ghost predicate Next(link: Link, s: State, s': State, step: Step)
    requires link.Valid()
  {
    && step.k < |s.streams| && |s'.streams| == |s.streams|
    && var t, t' := s.streams[step.k], s'.streams[step.k];
       && match step
          case Pop(_) =>
            && t.sender.Free? && s.queue != []
            && t' == t.(sender := Sending(s.queue[0], s.queue[0].bytes), route := t.route + [s.queue[0]])
            && s' == s.(streams := s.streams[step.k := t'], queue := s.queue[1..])
          case SendFrame(_) =>
            SendStep(link, t, t') && s' == s.(streams := s.streams[step.k := t'])
          case Close(_) =>
            && t.sender.Free? && s.queue == [] && t' == t.(sender := Closed)
            && s' == s.(streams := s.streams[step.k := t'])
          case Deliver(_) =>
            DeliverStep(link, t, t') && s' == s.(streams := s.streams[step.k := t'])
          case Mark(_) =>
            && t.receiver.Full? && t' == t.(receiver := Open(Between))
            && s' == s.(streams := s.streams[step.k := t'], recorded := s.recorded + multiset{t.receiver.chunk},
                        counter := s.counter + |t.receiver.chunk.bytes|)
          case Finish(_) =>
            && t.receiver.Open? && t.channel == [] && t.sender.Closed?
            && t' == t.(receiver := if t.receiver.cur.Between? then Done else Failed)
            && s' == s.(streams := s.streams[step.k := t'])
  }

  const IDLE: Stream := Stream(Free, [], Open(Between), [])

  /** A fresh session; the counter may already stand for what was resumed. */
  ghost predicate Init(link: Link, jobs: seq<Write>, s: State) {
    && s.queue == jobs && s.recorded == multiset{}
    && forall k :: 0 <= k < |s.streams| ==> s.streams[k] == IDLE
  }

  ghost predicate IsRun(link: Link, jobs: seq<Write>, states: seq<State>, steps: seq<Step>)
    requires link.Valid()
  {
    && |states| == |steps| + 1 && Init(link, jobs, states[0])
    && forall i :: 0 <= i < |steps| ==> Next(link, states[i], states[i + 1], steps[i])
  }

  // ----- what is on its way -------------------------------------------------------------------

  ghost predicate Good(link: Link, w: Write) { Sendable(link.H, link.files, w, link.frameSize) }

  ghost predicate AllGood(link: Link, ws: seq<Write>) {
    forall i :: 0 <= i < |ws| ==> Good(link, ws[i])
  }

  /** The frames of chunk `w` from its byte `got` on. */
  ghost function FramesFrom(link: Link, w: Write, got: nat): seq<Frame>
    requires Good(link, w) && got <= |w.bytes|
  {
    ChunkFrames(w.fileId, link.files[w.fileId].layout.Start(w.index) + got, w.bytes[got..], link.frameSize)
  }

  /** All frames still to be delivered for a list of chunks, `got` bytes of the first having arrived. */
  ghost function RouteFrames(link: Link, route: seq<Write>, got: nat): seq<Frame>
    requires AllGood(link, route) && (route != [] ==> got <= |route[0].bytes|)
  {
    if route == [] then []
    else FramesFrom(link, route[0], got) + RouteFrames(link, route[1..], 0)
  }

  /** The frames the sender has yet to emit for the chunk in hand. */
  ghost function ToEmit(link: Link, x: Sender): seq<Frame>
    requires x.Sending? ==> Good(link, x.chunk) && |x.rest| <= |x.chunk.bytes|
  {
    if x.Sending? then FramesFrom(link, x.chunk, |x.chunk.bytes| - |x.rest|) else []
  }

  ghost predicate SenderInv(link: Link, x: Sender, route: seq<Write>) {
    x.Sending? ==>
      && Good(link, x.chunk) && 0 < |x.rest| <= |x.chunk.bytes|
      && x.rest == x.chunk.bytes[|x.chunk.bytes| - |x.rest|..]
      && route != [] && route[|route| - 1] == x.chunk
  }

  ghost predicate ReceiverInv(link: Link, t: Stream, got: nat)
    requires link.Valid() && AllGood(link, t.route)
  {
    && (t.route == [] ==> got == 0) && (t.route != [] ==> got < |t.route[0].bytes|)
    && match t.receiver
       case Open(cur) =>
         && CurrentOk(link.files, cur)
         && (t.route == [] ==> cur == Between)
         && (t.route != [] ==> At(link, t.route[0], cur, got))
       case Full(w) => got == 0 && Good(link, w)
       case Done => t.channel == [] && t.sender.Closed? && t.route == []
       case Failed => false
  }

  /** The receiver has exactly the first `got` bytes of chunk `w`. */
  ghost predicate At(link: Link, w: Write, cur: Current, got: nat)
    requires Good(link, w)
  {
    got <= |w.bytes| && Within(link.files, w, cur, w.bytes[..got])
  }

  /** How much of the oldest chunk on the route has arrived. */
  ghost function Got(t: Stream): nat {
    if t.receiver.Open? && t.receiver.cur.Mid? then |t.receiver.cur.buf| else 0
  }

  /** Channel plus sender hold exactly the frames that the receiver still lacks, in order. */
  ghost predicate StreamInv(link: Link, t: Stream)
    requires link.Valid()
  {
    && AllGood(link, t.route)
    && ReceiverInv(link, t, Got(t)) && SenderInv(link, t.sender, t.route)
    && t.channel + ToEmit(link, t.sender) == RouteFrames(link, t.route, Got(t))
  }

  ghost predicate Inv(link: Link, s: State)
    requires link.Valid()
  {
    && AllGood(link, s.queue)
    && (forall k :: 0 <= k < |s.streams| ==> StreamInv(link, s.streams[k]))
    && (forall k :: 0 <= k < |s.streams| && s.streams[k].sender.Closed? ==> s.queue == [])
  }

  // ----- the frames of a route ------------------------------------------------------------------

  lemma GoodHasBytes(link: Link, w: Write)
    requires Good(link, w)
    ensures 0 < |w.bytes| && w.fileId in link.files && Committed(link.H, link.files, w)
  {
  }

  lemma AllGoodSplit(link: Link, ws: seq<Write>, w: Write)
    requires AllGood(link, ws)
    ensures ws != [] ==> Good(link, ws[0]) && AllGood(link, ws[1..])
    ensures Good(link, w) ==> AllGood(link, ws + [w])
  {
    hide Good;
  }

  lemma {:induction false} RouteFramesPush(link: Link, route: seq<Write>, got: nat, w: Write)
    requires AllGood(link, route) && AllGood(link, route + [w]) && Good(link, w)
    requires if route == [] then got == 0 else got <= |route[0].bytes|
    ensures RouteFrames(link, route + [w], got) == RouteFrames(link, route, got) + FramesFrom(link, w, 0)
    decreases |route|
  {
    hide Good, FramesFrom;
    if route == [] {
      assert route + [w] == [w] && [w][1..] == [];
    } else {
      AllGoodSplit(link, route, w);
      AllGoodSplit(link, route + [w], w);
      assert (route + [w])[1..] == route[1..] + [w];
      RouteFramesPush(link, route[1..], 0, w);
    }
  }

  /** The first of the frames of a chunk from byte `got`. */
  lemma FramesUnfold(link: Link, w: Write, got: nat)
    requires link.Valid() && Good(link, w) && got < |w.bytes|
    ensures
      var n, at := Min(link.frameSize, |w.bytes| - got), link.files[w.fileId].layout.Start(w.index) + got;
      && 0 < n <= MAX_FRAME_PAYLOAD && got + n <= |w.bytes| && at <= U64_MAX
      && FramesFrom(link, w, got) == [DataFrame(w.fileId, at, w.bytes[got..][..n])] + FramesFrom(link, w, got + n)
      && w.bytes[got..][n..] == w.bytes[got + n..]
  {
    hide DataFrame;
    var n := Min(link.frameSize, |w.bytes| - got);
    assert w.bytes[got..][n..] == w.bytes[got + n..];
  }

  lemma NoFramesAtEnd(link: Link, w: Write)
    requires Good(link, w)
    ensures FramesFrom(link, w, |w.bytes|) == []
  {
  }

  // ----- every step keeps the invariant -----------------------------------------------------------

  lemma InitHasInv(link: Link, jobs: seq<Write>, s: State)
    requires link.Valid() && AllGood(link, jobs) && Init(link, jobs, s)
    ensures Inv(link, s)
  {
    assert StreamInv(link, IDLE);
  }

  lemma PopKeeps(link: Link, t: Stream, t': Stream, w: Write)
    requires link.Valid() && StreamInv(link, t) && t.sender.Free? && Good(link, w)
    requires t' == t.(sender := Sending(w, w.bytes), route := t.route + [w])
    ensures StreamInv(link, t')
  {
    hide Good, FramesFrom, CurrentOk, Within;
    GoodHasBytes(link, w);
    AllGoodSplit(link, t.route, w);
    RouteFramesPush(link, t.route, Got(t), w);
    NothingGot(link, w);
    assert w.bytes[0..] == w.bytes && t.channel + [] == t.channel;
  }

  lemma NothingGot(link: Link, w: Write)
    requires link.Valid() && Good(link, w)
    ensures At(link, w, Between, 0)
  {
    assert w.bytes[..0] == [];
  }

  lemma SendKeeps(link: Link, t: Stream, t': Stream)
    requires link.Valid() && StreamInv(link, t) && SendStep(link, t, t')
    ensures StreamInv(link, t')
  {
    hide Good, FramesFrom, CurrentOk, Within, RouteFrames, DataFrame;
    var w, rest := t.sender.chunk, t.sender.rest;
    var got := |w.bytes| - |rest|;
    FramesUnfold(link, w, got);
    NoFramesAtEnd(link, w);
    var n := Min(link.frameSize, |rest|);
    var f := DataFrame(w.fileId, link.files[w.fileId].layout.Start(w.index) + got, rest[..n]);
    assert t.channel + ([f] + FramesFrom(link, w, got + n)) == (t.channel + [f]) + FramesFrom(link, w, got + n);
  }

  /** The next frame in a channel is the next frame of the oldest chunk. */
  lemma HeadIsNext(link: Link, t: Stream)
    requires link.Valid() && StreamInv(link, t) && t.channel != [] && t.receiver.Open?
    ensures t.route != [] && Good(link, t.route[0]) && CurrentOk(link.files, t.receiver.cur)
    ensures
      var w, got := t.route[0], Got(t);
      && got < |w.bytes| && At(link, w, t.receiver.cur, got)
      && var n, at := Min(link.frameSize, |w.bytes| - got), link.files[w.fileId].layout.Start(w.index) + got;
         && 0 < n <= MAX_FRAME_PAYLOAD && got + n <= |w.bytes| && at <= U64_MAX
         && t.channel[0] == DataFrame(w.fileId, at, w.bytes[got..][..n])
         && t.channel[1..] + ToEmit(link, t.sender)
            == FramesFrom(link, w, got + n) + RouteFrames(link, t.route[1..], 0)
  {
    hide FramesFrom, CurrentOk, Sendable, At, DataFrame;
    var w, got := t.route[0], Got(t);
    GoodHasBytes(link, w);
    FramesUnfold(link, w, got);
    var n, at := Min(link.frameSize, |w.bytes| - got), link.files[w.fileId].layout.Start(w.index) + got;
    HeadFrame(t.channel, ToEmit(link, t.sender), DataFrame(w.fileId, at, w.bytes[got..][..n]),
              FramesFrom(link, w, got + n), RouteFrames(link, t.route[1..], 0));
  }

  lemma CutAt(b: seq<byte>, got: nat, n: nat)
    requires got + n <= |b|
    ensures b == b[..got] + b[got..] && b[..got] + b[got..][..n] == b[..got + n]
  {
  }

  /** And the receiver's automaton takes it: it buffers more, or the chunk lands whole. */
  lemma NextFrame(link: Link, t: Stream)
    requires link.Valid() && StreamInv(link, t) && t.channel != [] && t.receiver.Open?
    ensures t.route != [] && Good(link, t.route[0]) && CurrentOk(link.files, t.receiver.cur)
    ensures
      var w, got := t.route[0], Got(t);
      got < |w.bytes| &&
      var n := Min(link.frameSize, |w.bytes| - got);
      var step := OnData(link.H, link.files, t.receiver.cur, t.channel[0]);
      && 0 < n && got + n <= |w.bytes| && |t.channel[0].payload| == n
      && (if got + n == |w.bytes| then step == Landed(w)
          else step.More? && CurrentOk(link.files, step.cur) && At(link, w, step.cur, got + n))
      && t.channel[1..] + ToEmit(link, t.sender) == FramesFrom(link, w, got + n) + RouteFrames(link, t.route[1..], 0)
  {
    hide FramesFrom, CurrentOk, OnData, Sendable, StreamInv, RouteFrames;
    HeadIsNext(link, t);
    var w, got := t.route[0], Got(t);
    GoodHasBytes(link, w);
    var n := Min(link.frameSize, |w.bytes| - got);
    CutAt(w.bytes, got, n);
    FrameAbsorbed(link.H, link.files, w, t.receiver.cur, w.bytes[..got], w.bytes[got..], w.bytes[got..][..n]);
  }

  lemma HeadFrame(channel: seq<Frame>, emit: seq<Frame>, f: Frame, a: seq<Frame>, b: seq<Frame>)
    requires channel != [] && channel + emit == ([f] + a) + b
    ensures channel[0] == f && channel[1..] + emit == a + b
  {
    assert (channel + emit)[0] == channel[0] && (channel + emit)[1..] == channel[1..] + emit;
    assert (([f] + a) + b)[1..] == a + b;
  }

  lemma DeliverKeeps(link: Link, t: Stream, t': Stream)
    requires link.Valid() && StreamInv(link, t) && DeliverStep(link, t, t')
    ensures StreamInv(link, t')
  {
    hide FramesFrom, CurrentOk, OnData, Sendable, ChunkLayout.Len;
    NextFrame(link, t);
    var w, got := t.route[0], Got(t);
    var n := Min(link.frameSize, |w.bytes| - got);
    AllGoodSplit(link, t.route, w);
    if got + n == |w.bytes| {
      NoFramesAtEnd(link, w);
      LandKeeps(link, t, t', w);
    } else {
      MoreKeeps(link, t, t', got + n);
    }
  }

  lemma LandKeeps(link: Link, t: Stream, t': Stream, w: Write)
    requires link.Valid() && AllGood(link, t.route) && t.route != [] && w == t.route[0]
      && SenderInv(link, t.sender, t.route)
    requires AllGood(link, t.route[1..]) && t.channel != [] && t.receiver.Open?
    requires t' == t.(channel := t.channel[1..], receiver := Full(w), route := t.route[1..])
    requires t.channel[1..] + ToEmit(link, t.sender) == RouteFrames(link, t.route[1..], 0)
    ensures StreamInv(link, t')
  {
    hide Sendable, FramesFrom;
    if t.route[1..] != [] {
      GoodHasBytes(link, t.route[1]);
      assert t'.route[|t'.route| - 1] == t.route[|t.route| - 1];
    } else if t.sender.Sending? {
      FramesUnfold(link, t.sender.chunk, |t.sender.chunk.bytes| - |t.sender.rest|);
      assert false;
    }
  }

  lemma MoreKeeps(link: Link, t: Stream, t': Stream, got: nat)
    requires link.Valid() && AllGood(link, t.route) && t.route != [] && SenderInv(link, t.sender, t.route)
    requires got < |t.route[0].bytes| && got > 0 && t.channel != []
    requires t'.receiver.Open? && CurrentOk(link.files, t'.receiver.cur) && At(link, t.route[0], t'.receiver.cur, got)
    requires t' == t.(channel := t.channel[1..], receiver := t'.receiver)
    requires t'.channel + ToEmit(link, t.sender) == RouteFrames(link, t.route, got)
    ensures StreamInv(link, t')
  {
    hide Sendable, FramesFrom, CurrentOk, ChunkLayout.Len;
    assert Got(t') == got;
  }

  lemma MarkKeeps(link: Link, t: Stream, t': Stream)
    requires link.Valid() && StreamInv(link, t) && t.receiver.Full? && t' == t.(receiver := Open(Between))
    ensures StreamInv(link, t')
  {
    hide Sendable, FramesFrom;
    if t.route != [] { NothingGot(link, t.route[0]); }
  }

  /** A stream whose sender is closed and whose channel is empty owes nothing. */
  lemma DrainedRouteIsEmpty(link: Link, t: Stream)
    requires link.Valid() && StreamInv(link, t) && t.channel == [] && !t.sender.Sending?
    ensures t.route == []
  {
    hide Sendable, FramesFrom, CurrentOk;
    if t.route != [] {
      FramesUnfold(link, t.route[0], Got(t));
      assert false;
    }
  }

  lemma FinishKeeps(link: Link, t: Stream, t': Stream)
    requires link.Valid() && StreamInv(link, t) && t.receiver.Open? && t.channel == [] && t.sender.Closed?
    requires t' == t.(receiver := if t.receiver.cur.Between? then Done else Failed)
    ensures StreamInv(link, t')
  {
    hide Sendable, FramesFrom, CurrentOk;
    DrainedRouteIsEmpty(link, t);
  }

  lemma NextKeepsInv(link: Link, s: State, s': State, step: Step)
    requires link.Valid() && Inv(link, s) && Next(link, s, s', step)
    ensures Inv(link, s')
  {
    hide StreamInv, Good, SendStep, DeliverStep;
    var t, t' := s.streams[step.k], s'.streams[step.k];
    assert StreamInv(link, t') by {
      match step {
        case Pop(_) => PopKeeps(link, t, t', s.queue[0]);
        case SendFrame(_) => SendKeeps(link, t, t');
        case Close(_) => CloseKeeps(link, t, t');
        case Deliver(_) => DeliverKeeps(link, t, t');
        case Mark(_) => MarkKeeps(link, t, t');
        case Finish(_) => FinishKeeps(link, t, t');
      }
    }
    StaysOpen(link, t, t', step, s, s');
  }

  lemma CloseKeeps(link: Link, t: Stream, t': Stream)
    requires link.Valid() && StreamInv(link, t) && t.sender.Free? && t' == t.(sender := Closed)
    ensures StreamInv(link, t')
  {
    hide Sendable, FramesFrom, CurrentOk, RouteFrames;
    DoneMeansClosed(link, t);
  }

  lemma DoneMeansClosed(link: Link, t: Stream)
    requires link.Valid() && StreamInv(link, t)
    ensures t.receiver.Done? ==> t.channel == [] && t.sender.Closed? && t.route == []
  {
  }

  lemma StaysOpen(link: Link, t: Stream, t': Stream, step: Step, s: State, s': State)
    requires link.Valid() && Next(link, s, s', step) && t == s.streams[step.k] && t' == s'.streams[step.k]
    ensures t'.sender.Closed? ==> t.sender.Closed? || s'.queue == []
  {
    hide OnData, CurrentOk, DataFrame;
  }

  lemma {:induction false} RunKeepsInv(link: Link, jobs: seq<Write>, states: seq<State>, steps: seq<Step>, i: nat)
    requires link.Valid() && AllGood(link, jobs) && IsRun(link, jobs, states, steps) && i < |states|
    ensures Inv(link, states[i])
  {
    hide Inv, Next, Init, AllGood;
    if i == 0 {
      InitHasInv(link, jobs, states[0]);
    } else {
      RunKeepsInv(link, jobs, states, steps, i - 1);
      NextKeepsInv(link, states[i - 1], states[i], steps[i - 1]);
    }
  }
}
