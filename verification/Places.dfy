// The five places a wanted chunk can be in during an undisturbed transfer: queue, sender,
// channel, receiver, record. It is in exactly one, at every step of every run.

module Places {
  import opened Base
  import opened Layout
  import opened Wire
  import opened Drain
  import opened RoundTrip
  import opened Pipeline
  import opened Convergence
  import WorkQueue

  datatype Place = InQueue | AtSender(k: nat) | InChannel(k: nat) | AtReceiver(k: nat) | Recorded

  /** Chunk `w` is in place `p`. On a stream it is where its last frame is: not sent yet, in the
      channel, or arrived. */
  ghost predicate Is(link: Link, s: State, w: Write, p: Place)
    requires Good(link, w)
  {
    match p
    case InQueue => w in s.queue
    case AtSender(k) => k < |s.streams| && s.streams[k].sender.Sending? && s.streams[k].sender.chunk == w
    case InChannel(k) => k < |s.streams| && SomeEnds(link, s.streams[k].channel, w)
    case AtReceiver(k) => k < |s.streams| && s.streams[k].receiver == Full(w)
    case Recorded => w in s.recorded
  }

  // ----- which chunk a frame belongs to ------------------------------------------------------

  function EndOf(f: Frame): nat { f.header.offset + |f.payload| }

  ghost function StartOf(link: Link, w: Write): nat
    requires Good(link, w)
  {
    link.files[w.fileId].layout.Start(w.index)
  }

  /** Frame `f` ends inside chunk `w`, after its byte `from`. */
  ghost predicate Inside(link: Link, f: Frame, w: Write, from: nat)
    requires Good(link, w)
  {
    f.header.fileId == w.fileId && StartOf(link, w) + from < EndOf(f) <= StartOf(link, w) + |w.bytes|
  }

  lemma FirstEnds(link: Link, w: Write, got: nat)
    requires link.Valid() && Good(link, w) && got < |w.bytes|
    ensures
      var n := Min(link.frameSize, |w.bytes| - got);
      && 0 < n && |FramesFrom(link, w, got)| > 0
      && FramesFrom(link, w, got)[0].header.fileId == w.fileId
      && FramesFrom(link, w, got)[0].header.offset == StartOf(link, w) + got
      && EndOf(FramesFrom(link, w, got)[0]) == StartOf(link, w) + got + n
  {
    hide Good, FramesFrom;
    FramesUnfold(link, w, got);
  }

  lemma {:induction false} FramesInside(link: Link, w: Write, got: nat, i: nat)
    requires link.Valid() && Good(link, w) && got <= |w.bytes| && i < |FramesFrom(link, w, got)|
    ensures Inside(link, FramesFrom(link, w, got)[i], w, got)
    decreases i
  {
    hide Good, FramesFrom;
    if got == |w.bytes| {
      NoFramesAtEnd(link, w);
      assert false;
    }
    FramesUnfold(link, w, got);
    FirstEnds(link, w, got);
    if i > 0 { FramesInside(link, w, got + Min(link.frameSize, |w.bytes| - got), i - 1); }
  }

  /** Every frame on a route ends inside one of its chunks. */
  lemma {:induction false} RouteOwner(link: Link, route: seq<Write>, got: nat, i: nat) returns (j: nat)
    requires link.Valid() && AllGood(link, route) && (route != [] ==> got <= |route[0].bytes|)
    requires i < |RouteFrames(link, route, got)|
    ensures j < |route| && Good(link, route[j]) && Inside(link, RouteFrames(link, route, got)[i], route[j], 0)
    decreases |route|
  {
    hide Sendable, FramesFrom;
    var own := FramesFrom(link, route[0], got);
    if i < |own| {
      FramesInside(link, route[0], got, i);
      j := 0;
    } else {
      j := RouteOwner(link, route[1..], 0, i - |own|);
      j := j + 1;
    }
  }

  /** A chunk that ends where a frame of another ends is that other chunk. */
  lemma SameChunk(link: Link, f: Frame, w: Write, r: Write)
    requires link.Valid() && Good(link, w) && Good(link, r) && Ends(link, f, w) && Inside(link, f, r, 0)
    ensures w.fileId == r.fileId && w.index == r.index && EndOf(f) == StartOf(link, r) + |r.bytes|
  {
    var l := link.files[w.fileId].layout;
    if w.index < r.index { ChunksDisjoint(l, w.index, r.index); }
    if r.index < w.index { ChunksDisjoint(l, r.index, w.index); }
  }

  // ----- what the sender has let go of ----------------------------------------------------------

  /** The frames that come before those from byte `b` on end at or before byte `b`. */
  lemma {:induction false} CutFrames(link: Link, w: Write, a: nat, b: nat, sent: seq<Frame>, i: nat)
    requires link.Valid() && Good(link, w) && a <= |w.bytes| && b < |w.bytes|
    requires FramesFrom(link, w, a) == sent + FramesFrom(link, w, b) && i < |sent|
    ensures EndOf(sent[i]) <= StartOf(link, w) + b
    decreases |sent|
  {
    hide Good, FramesFrom;
    FirstEnds(link, w, b);
    if a == |w.bytes| {
      NoFramesAtEnd(link, w);
      assert false;
    }
    FramesUnfold(link, w, a);
    FirstEnds(link, w, a);
    var n := Min(link.frameSize, |w.bytes| - a);
    var rest := sent[1..];
    assert FramesFrom(link, w, a)[1..] == FramesFrom(link, w, a + n);
    assert (sent + FramesFrom(link, w, b))[1..] == rest + FramesFrom(link, w, b);
    if rest == [] {
      assert FramesFrom(link, w, a + n) == FramesFrom(link, w, b);
      if a + n < |w.bytes| { FirstEnds(link, w, a + n); } else { NoFramesAtEnd(link, w); }
    } else {
      CutFrames(link, w, a + n, b, rest, 0);
      NextEndsLater(link, w, a + n, rest[0]);
      if i > 0 { CutFrames(link, w, a + n, b, rest, i - 1); }
    }
  }

  lemma NextEndsLater(link: Link, w: Write, got: nat, f: Frame)
    requires link.Valid() && Good(link, w) && got <= |w.bytes|
    requires |FramesFrom(link, w, got)| > 0 && FramesFrom(link, w, got)[0] == f
    ensures StartOf(link, w) + got < EndOf(f)
  {
    hide Good, FramesFrom;
    FramesInside(link, w, got, 0);
  }

  // ----- a last frame in the channel ---------------------------------------------------------------

  /** No two chunks of the job are the same chunk of the same file. */
  ghost predicate Distinct(jobs: seq<Write>) {
    forall a, b :: 0 <= a < b < |jobs| ==> jobs[a].fileId != jobs[b].fileId || jobs[a].index != jobs[b].index
  }

  lemma SameIsSame(jobs: seq<Write>, x: Write, y: Write)
    requires Distinct(jobs) && x in jobs && y in jobs && x.fileId == y.fileId && x.index == y.index
    ensures x == y
  {
    var a :| 0 <= a < |jobs| && jobs[a] == x;
    var b :| 0 <= b < |jobs| && jobs[b] == y;
  }

  /** The chunk whose last frame is in a channel is on that stream's route, and not in its sender's hand. */
  lemma ChannelMeansRoute(link: Link, t: Stream, jobs: seq<Write>, w: Write) returns (j: nat)
    requires link.Valid() && StreamInv(link, t) && Good(link, w) && SomeEnds(link, t.channel, w)
    requires Distinct(jobs) && w in jobs && forall x :: x in t.route ==> x in jobs
    ensures j < |t.route| && t.route[j] == w && !Convergence.AtSender(t, j)
  {
    hide Sendable, FramesFrom, CurrentOk, Ends, At, Inside;
    var i :| 0 <= i < |t.channel| && Ends(link, t.channel[i], w);
    if t.sender.Sending? {
      j := SentMeansFront(link, t, jobs, w, i);
    } else {
      assert t.channel + [] == t.channel;
      j := RouteOwner(link, t.route, Got(t), i);
      SameChunk(link, t.channel[i], w, t.route[j]);
      SameIsSame(jobs, w, t.route[j]);
    }
  }

  /** The same while the sender has a chunk in hand: what it has emitted of that chunk stops short. */
  lemma SentMeansFront(link: Link, t: Stream, jobs: seq<Write>, w: Write, i: nat) returns (j: nat)
    requires link.Valid() && StreamInv(link, t) && Good(link, w) && t.sender.Sending?
    requires i < |t.channel| && Ends(link, t.channel[i], w)
    requires Distinct(jobs) && w in jobs && forall x :: x in t.route ==> x in jobs
    ensures j + 1 < |t.route| && t.route[j] == w
  {
    hide Sendable, FramesFrom, CurrentOk, Ends, At, Inside, Distinct;
    var r, n := t.sender.chunk, |t.route| - 1;
    var front, b := t.route[..n], |r.bytes| - |t.sender.rest|;
    assert t.route == front + [r];
    var a := if front == [] then Got(t) else 0;
    var ahead := RouteFrames(link, front, Got(t));
    LastApart(link, front, r, Got(t));
    assert t.channel + FramesFrom(link, r, b) == ahead + FramesFrom(link, r, a);
    if i < |ahead| {
      assert (t.channel + FramesFrom(link, r, b))[i] == t.channel[i] && (ahead + FramesFrom(link, r, a))[i] == ahead[i];
      j := RouteOwner(link, front, Got(t), i);
      SameChunk(link, t.channel[i], w, front[j]);
      assert front[j] == t.route[j] && t.route[j] in t.route;
      SameIsSame(jobs, w, t.route[j]);
    } else {
      StopsShort(link, t.channel, ahead, r, w, a, b, i);
    }
  }

  /** The frames of a route end with those of its last chunk. */
  lemma LastApart(link: Link, front: seq<Write>, r: Write, got: nat)
    requires link.Valid() && AllGood(link, front + [r]) && AllGood(link, front) && Good(link, r)
    requires if front == [] then got <= |r.bytes| else got <= |front[0].bytes|
    ensures RouteFrames(link, front + [r], got)
         == RouteFrames(link, front, got) + FramesFrom(link, r, if front == [] then got else 0)
  {
    hide Good, FramesFrom;
    if front == [] {
      assert front + [r] == [r] && [r][1..] == [];
    } else {
      RouteFramesPush(link, front, got, r);
    }
  }

  /** A frame of the chunk in hand that has been emitted does not end any chunk. */
  lemma StopsShort(link: Link, channel: seq<Frame>, ahead: seq<Frame>, r: Write, w: Write, a: nat, b: nat, i: nat)
    requires link.Valid() && Good(link, r) && Good(link, w) && a <= |r.bytes| && b < |r.bytes|
    requires channel + FramesFrom(link, r, b) == ahead + FramesFrom(link, r, a)
    requires |ahead| <= i < |channel|
    ensures !Ends(link, channel[i], w)
  {
    hide Good, FramesFrom, Ends, Inside;
    var sent := channel[|ahead|..];
    assert (channel + FramesFrom(link, r, b))[|ahead|..] == sent + FramesFrom(link, r, b);
    assert (ahead + FramesFrom(link, r, a))[|ahead|..] == FramesFrom(link, r, a);
    CutFrames(link, r, a, b, sent, i - |ahead|);
    assert FramesFrom(link, r, a)[i - |ahead|] == sent[i - |ahead|] == channel[i];
    FramesInside(link, r, a, i - |ahead|);
    InsideFromStart(link, channel[i], r, a);
    if Ends(link, channel[i], w) { SameChunk(link, channel[i], w, r); }
  }

  lemma InsideFromStart(link: Link, f: Frame, r: Write, a: nat)
    requires Good(link, r) && Inside(link, f, r, a)
    ensures Inside(link, f, r, 0)
  {
    hide Good;
  }

  // ----- counting -----------------------------------------------------------------------------------

  lemma TwiceCounts(ws: seq<Write>, i: nat, j: nat)
    requires i < j < |ws| && ws[i] == ws[j]
    ensures multiset(ws)[ws[i]] >= 2
  {
    var a, b := ws[..j], ws[j..];
    assert ws == a + b;
    assert a[i] in a && b[0] in b;
  }

  lemma {:induction false} OneCarries(streams: seq<Stream>, k: nat, w: Write)
    requires k < |streams|
    ensures Carried(streams[k])[w] <= AllCarried(streams)[w]
  {
    hide Carried;
    if k > 0 { OneCarries(streams[1..], k - 1, w); }
  }

  lemma {:induction false} TwoCarry(streams: seq<Stream>, k: nat, m: nat, w: Write)
    requires k < m < |streams|
    ensures Carried(streams[k])[w] + Carried(streams[m])[w] <= AllCarried(streams)[w]
  {
    hide Carried;
    if k > 0 { TwoCarry(streams[1..], k - 1, m - 1, w); } else { OneCarries(streams[1..], m - 1, w); }
  }

  lemma {:induction false} SomeCarrier(streams: seq<Stream>, w: Write) returns (k: nat)
    requires AllCarried(streams)[w] > 0
    ensures k < |streams| && Carried(streams[k])[w] > 0
  {
    hide Carried;
    if Carried(streams[0])[w] > 0 {
      k := 0;
    } else {
      k := SomeCarrier(streams[1..], w);
      k := k + 1;
    }
  }

  /** What a stream carries belongs to the job. */
  lemma RouteInJobs(jobs: seq<Write>, s: State, k: nat, x: Write)
    requires Conserved(jobs, s) && k < |s.streams| && x in s.streams[k].route
    ensures x in jobs
  {
    OneCarries(s.streams, k, x);
    assert multiset(jobs)[x] > 0;
  }

  // ----- exactly one place ---------------------------------------------------------------------------

  /** The stream a place is on. */
  function StreamOf(p: Place): Option<nat> {
    match p
    case AtSender(k) => Some(k)
    case InChannel(k) => Some(k)
    case AtReceiver(k) => Some(k)
    case _ => None
  }

  ghost predicate Setting(link: Link, jobs: seq<Write>, s: State, w: Write)
    requires link.Valid()
  {
    && Inv(link, s) && Conserved(jobs, s) && Distinct(jobs) && Good(link, w) && w in jobs
    && multiset(s.queue)[w] + AllCarried(s.streams)[w] + s.recorded[w] == 1
  }

  /** A chunk in a place on a stream is carried by that stream; in two, it would be carried twice. */
  lemma PlaceIsCarried(link: Link, jobs: seq<Write>, s: State, w: Write, p: Place, q: Place)
    requires link.Valid() && Setting(link, jobs, s, w) && Is(link, s, w, p) && Is(link, s, w, q)
    requires StreamOf(p).Some? && StreamOf(p) == StreamOf(q)
    ensures StreamOf(p).value < |s.streams| && Carried(s.streams[StreamOf(p).value])[w] >= (if p == q then 1 else 2)
  {
    hide Sendable, CurrentOk, RouteFrames, SomeEnds, Conserved, Distinct, At, Within;
    var k := StreamOf(p).value;
    var t := s.streams[k];
    assert StreamInv(link, t);
    forall x | x in t.route
      ensures x in jobs
    {
      RouteInJobs(jobs, s, k, x);
    }
    if SomeEnds(link, t.channel, w) {
      var j := ChannelMeansRoute(link, t, jobs, w);
      if t.sender.Sending? && t.sender.chunk == w { TwiceCounts(t.route, j, |t.route| - 1); }
    }
  }

  lemma OnePlaceAtMost(link: Link, jobs: seq<Write>, s: State, w: Write, p: Place, q: Place)
    requires link.Valid() && Setting(link, jobs, s, w) && Is(link, s, w, p) && Is(link, s, w, q)
    ensures p == q
  {
    hide Inv, Sendable, SomeEnds, Conserved, Distinct, Carried, AllCarried;
    if StreamOf(p).Some? {
      PlaceIsCarried(link, jobs, s, w, p, p);
      OneCarries(s.streams, StreamOf(p).value, w);
    }
    if StreamOf(q).Some? {
      PlaceIsCarried(link, jobs, s, w, q, q);
      OneCarries(s.streams, StreamOf(q).value, w);
    }
    if StreamOf(p).Some? && StreamOf(q).Some? {
      var k, m := StreamOf(p).value, StreamOf(q).value;
      if k == m { PlaceIsCarried(link, jobs, s, w, p, q); }
      if k < m { TwoCarry(s.streams, k, m, w); }
      if m < k { TwoCarry(s.streams, m, k, w); }
    }
  }

  lemma OnePlaceAtLeast(link: Link, jobs: seq<Write>, s: State, w: Write) returns (p: Place)
    requires link.Valid() && Setting(link, jobs, s, w)
    ensures Is(link, s, w, p)
  {
    hide Sendable, SomeEnds, Conserved, Distinct, AllCarried, StreamInv;
    if w in s.queue {
      p := InQueue;
    } else if w in s.recorded {
      p := Recorded;
    } else {
      var k := SomeCarrier(s.streams, w);
      var t := s.streams[k];
      if t.receiver == Full(w) {
        p := AtReceiver(k);
      } else {
        assert w in t.route;
        var j :| 0 <= j < |t.route| && t.route[j] == w;
        RouteIsSenderOrChannel(link, t, j);
        p := if Convergence.AtSender(t, j) then AtSender(k) else InChannel(k);
      }
    }
  }

  lemma JobsDistinct(items: seq<WorkQueue.WorkItem>, jobs: seq<Write>)
    requires WorkQueue.Ordered(items) && JobOf(items, jobs)
    ensures Distinct(jobs)
  {
    forall a, b | 0 <= a < b < |jobs|
      ensures jobs[a].fileId != jobs[b].fileId || jobs[a].index != jobs[b].index
    {
      assert WorkQueue.Before(items[a], items[b]);
    }
  }

  /** At every step of every run each wanted chunk is in exactly one of the five places, and if that is
      on a stream, on one stream only: queued; in a sender's hand; its last frame in a channel, and then in no
      sender's hand; whole at a receiver; or recorded. */
  lemma EveryChunkInOnePlace(link: Link, items: seq<WorkQueue.WorkItem>, jobs: seq<Write>,
                             states: seq<State>, steps: seq<Pipeline.Step>, i: nat, j: nat)
    requires link.Valid() && AllGood(link, jobs) && IsRun(link, jobs, states, steps) && i < |states|
    requires WorkQueue.Ordered(items) && JobOf(items, jobs) && j < |jobs|
    ensures Good(link, jobs[j])
    ensures exists p :: Is(link, states[i], jobs[j], p) && forall q :: Is(link, states[i], jobs[j], q) ==> q == p
  {
    hide Next, Init, IsRun, Inv, Sendable, Conserved, AllCarried, Is, Distinct, WorkQueue.Ordered, JobOf;
    var s, w := states[i], jobs[j];
    RunKeepsInv(link, jobs, states, steps, i);
    RunConserves(link, jobs, states, steps, i);
    JobsDistinct(items, jobs);
    EveryChunkCountedOnce(link, items, jobs, states, steps, i, j);
    assert Setting(link, jobs, s, w);
    var p := OnePlaceAtLeast(link, jobs, s, w);
    forall q | Is(link, s, w, q)
      ensures q == p
    {
      OnePlaceAtMost(link, jobs, s, w, p, q);
    }
  }
}
