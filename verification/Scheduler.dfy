// The sender's stream workers (aetherlink-core send.rs): N tasks deal chunks from one
// queue, borrow them from the mapping, finish them out of order and release pages behind
// the slowest. Popping and registering are one step, under the queue lock; borrowing,
// finishing, releasing and counting are separate, and any worker may move next.

module Scheduler {
  import opened Base
  import opened Layout
  import opened WorkQueue
  import opened ReadCursors

  /** Where a stream worker is. */
  datatype Hand =
    | Free
    | Begun(item: WorkItem)                      // popped and registered
    | Borrowing(item: WorkItem)                  // holds a slice of the mapping while it writes frames
    | Ended(item: WorkItem)                      // the slice is gone, `finish` not called yet
    | Releasing(item: WorkItem, range: (u64, u64)) // `finish` returned a range, both locks dropped
    | Counting(item: WorkItem)                   // about to advance `sent`
    | Broken(item: WorkItem)                     // returned an error; its chunk stays registered
    | Gone                                       // saw the queue empty
  {
    /** The chunk is registered with its file's cursor. */
    predicate Reading() { Begun? || Borrowing? || Ended? || Broken? }

    /** The chunk has left the queue and is not in `sent`. */
    predicate Carrying() { !Free? && !Gone? }
  }

  type Range = (u64, u64)

  /** `ranges` and `performed` are history: per file, every range handed out by `finish`, and the
      releases that have been carried out. */
  datatype State = State(queue: seq<WorkItem>, cursors: seq<Cursor>, hands: seq<Hand>, sent: nat,
                         ranges: seq<seq<Range>>, performed: set<(nat, Range)>)

  datatype Step = Pop(w: nat) | Borrow(w: nat) | EndBorrow(w: nat) | Finish(w: nat) | Release(w: nat)
                | Count(w: nat) | Fail(w: nat) | Quit(w: nat)

  predicate InFiles(files: seq<Offered>, x: WorkItem) {
    x.fileIndex < |files| && x.chunkIndex < files[x.fileIndex].layout.count
  }

  /** A queue as the sender builds it: in dispatch order, every item a chunk of its file. */
  ghost predicate Dispatchable(files: seq<Offered>, q: seq<WorkItem>) {
    Ordered(q) && forall k :: 0 <= k < |q| ==> InFiles(files, q[k])
  }

  ghost predicate Init(files: seq<Offered>, q: seq<WorkItem>, s: State) {
    && s.queue == q && s.sent == 0 && s.performed == {}
    && |s.cursors| == |files| && (forall f :: 0 <= f < |files| ==> s.cursors[f] == FRESH)
    && |s.ranges| == |files| && (forall f :: 0 <= f < |files| ==> s.ranges[f] == [])
    && (forall w :: 0 <= w < |s.hands| ==> s.hands[w] == Free)
  }

  ghost predicate PopStep(s: State, s': State, w: nat)
    requires w < |s.hands|
  {
    && s.hands[w].Free? && s.queue != []
    && var x := s.queue[0];
       && x.fileIndex < |s.cursors| && x.chunkIndex < U64_MAX
       && s' == s.(queue := s.queue[1..], hands := s.hands[w := Begun(x)],
                   cursors := s.cursors[x.fileIndex := s.cursors[x.fileIndex].Begin(x.chunkIndex)])
  }

  ghost predicate FinishStep(files: seq<Offered>, s: State, s': State, w: nat)
    requires w < |s.hands|
  {
    && s.hands[w].Ended?
    && var x := s.hands[w].item;
       var f := x.fileIndex;
       && f < |files| && f < |s.cursors| && f < |s.ranges|
       && var l := files[f].layout;
          var (c, range) := s.cursors[f].Finish(x.chunkIndex, Batch(l), l.chunkSize, l.fileSize);
          match range
          case None => s' == s.(cursors := s.cursors[f := c], hands := s.hands[w := Counting(x)])
          case Some(r) => s' == s.(cursors := s.cursors[f := c], hands := s.hands[w := Releasing(x, r)],
                                   ranges := s.ranges[f := s.ranges[f] + [r]])
  }

  /** One step of worker `step.w`. */
  ghost predicate Next(files: seq<Offered>, s: State, s': State, step: Step) {
    && step.w < |s.hands|
    && var h := s.hands[step.w];
       match step
       case Pop(w) => PopStep(s, s', w)
       case Borrow(w) => h.Begun? && s' == s.(hands := s.hands[w := Borrowing(h.item)])
       case EndBorrow(w) => h.Borrowing? && s' == s.(hands := s.hands[w := Ended(h.item)])
       case Finish(w) => FinishStep(files, s, s', w)
       case Release(w) =>
         h.Releasing? && s' == s.(hands := s.hands[w := Counting(h.item)],
                                  performed := s.performed + {(h.item.fileIndex, h.range)})
       case Count(w) =>
         h.Counting? && s' == s.(hands := s.hands[w := Free], sent := s.sent + Weight(files, h.item))
       case Fail(w) => (h.Begun? || h.Borrowing?) && s' == s.(hands := s.hands[w := Broken(h.item)])
       case Quit(w) => h.Free? && s.queue == [] && s' == s.(hands := s.hands[w := Gone])
  }

  ghost predicate IsRun(files: seq<Offered>, q: seq<WorkItem>, states: seq<State>, steps: seq<Step>) {
    && |states| == |steps| + 1
    && Init(files, q, states[0])
    && forall k :: 0 <= k < |steps| ==> Next(files, states[k], states[k + 1], steps[k])
  }

  // ----- the invariant ----------------------------------------------------------------

  /** Some worker holds chunk `c` of file `f` registered. */
  ghost predicate HeldBy(hands: seq<Hand>, f: nat, c: u64) {
    exists w :: 0 <= w < |hands| && hands[w].Reading() && hands[w].item == WorkItem(f, c)
  }

  ghost predicate CursorInv(l: ChunkLayout, c: Cursor, ranges: seq<Range>) {
    && Sound(c, l) && Ledger(ranges, c.releasedTo, l.chunkSize)
    && (c.inFlight == {} ==> BatchLeft(c, l, Batch(l)))
    && (forall k :: 0 <= k < |ranges| ==> ranges[k].0 + Batch(l) <= ranges[k].1)
  }

  ghost predicate CursorsInv(files: seq<Offered>, cursors: seq<Cursor>, ranges: seq<seq<Range>>) {
    && |cursors| == |ranges| == |files|
    && forall f :: 0 <= f < |files| ==> CursorInv(files[f].layout, cursors[f], ranges[f])
  }

  /** What is still queued is in order, and at or past its file's dispatch point. */
  ghost predicate QueueInv(files: seq<Offered>, cursors: seq<Cursor>, q: seq<WorkItem>) {
    && |cursors| == |files| && Dispatchable(files, q)
    && forall k :: 0 <= k < |q| ==> cursors[q[k].fileIndex].nextDispatch <= q[k].chunkIndex
  }

  /** Registered chunks are exactly those the workers hold, and no two hold the same. */
  ghost predicate HandsInv(cursors: seq<Cursor>, hands: seq<Hand>) {
    && (forall w :: 0 <= w < |hands| && hands[w].Reading() ==>
          hands[w].item.fileIndex < |cursors| && hands[w].item.chunkIndex in cursors[hands[w].item.fileIndex].inFlight)
    && (forall v, w :: 0 <= v < w < |hands| && hands[v].Reading() && hands[w].Reading() ==>
          hands[v].item != hands[w].item)
    && (forall f, c :: 0 <= f < |cursors| && c in cursors[f].inFlight ==> HeldBy(hands, f, c))
  }

  ghost predicate Pending(hands: seq<Hand>, f: nat, r: Range) {
    exists w :: 0 <= w < |hands| && hands[w].Releasing? && hands[w].item.fileIndex == f && hands[w].range == r
  }

  /** A range handed out is carried out or pending, and nothing else is ever released. */
  ghost predicate ReleaseInv(s: State) {
    && (forall f, r :: 0 <= f < |s.ranges| && r in s.ranges[f] ==> (f, r) in s.performed || Pending(s.hands, f, r))
    && (forall w :: 0 <= w < |s.hands| && s.hands[w].Releasing? ==>
          s.hands[w].item.fileIndex < |s.ranges| && s.hands[w].range in s.ranges[s.hands[w].item.fileIndex])
    && (forall x :: x in s.performed ==> x.0 < |s.ranges| && x.1 in s.ranges[x.0])
  }

  /** Every chunk of the first queue is still queued or below its file's dispatch point. */
  ghost predicate Dealt(q: seq<WorkItem>, s: State) {
    forall x :: x in q ==>
      || x in s.queue
      || (x.fileIndex < |s.cursors| && x.chunkIndex < s.cursors[x.fileIndex].nextDispatch)
  }

  ghost predicate Inv(files: seq<Offered>, q: seq<WorkItem>, s: State) {
    && LayoutsValid(files)
    && CursorsInv(files, s.cursors, s.ranges) && QueueInv(files, s.cursors, s.queue)
    && HandsInv(s.cursors, s.hands) && ReleaseInv(s) && Dealt(q, s)
  }

  lemma InitHasInv(files: seq<Offered>, q: seq<WorkItem>, s: State)
    requires LayoutsValid(files) && Dispatchable(files, q) && Init(files, q, s)
    ensures Inv(files, q, s)
  {
    forall f | 0 <= f < |files|
      ensures CursorInv(files[f].layout, s.cursors[f], s.ranges[f])
    {
      FreshIsSound(files[f].layout);
    }
  }

  // ----- moves that keep every registration ----------------------------------------------

  /** A worker moves between states that both hold the chunk, or both do not. */
  lemma SameGrip(cursors: seq<Cursor>, hands: seq<Hand>, w: nat, h: Hand)
    requires HandsInv(cursors, hands) && w < |hands|
    requires hands[w].Reading() == h.Reading() && (h.Reading() ==> h.item == hands[w].item)
    ensures HandsInv(cursors, hands[w := h])
  {
    var hands' := hands[w := h];
    forall f, c | 0 <= f < |cursors| && c in cursors[f].inFlight
      ensures HeldBy(hands', f, c)
    {
      var v :| 0 <= v < |hands| && hands[v].Reading() && hands[v].item == WorkItem(f, c);
      assert hands'[v].Reading() && hands'[v].item == WorkItem(f, c);
    }
  }

  /** A worker that releases nothing moves to where it releases nothing. */
  lemma SamePending(s: State, s': State, w: nat, h: Hand)
    requires ReleaseInv(s) && w < |s.hands| && !s.hands[w].Releasing? && !h.Releasing?
    requires s'.hands == s.hands[w := h] && s'.ranges == s.ranges && s'.performed == s.performed
    ensures ReleaseInv(s')
  {
    forall f, r | 0 <= f < |s'.ranges| && r in s'.ranges[f]
      ensures (f, r) in s'.performed || Pending(s'.hands, f, r)
    {
      if (f, r) !in s.performed {
        var v :| 0 <= v < |s.hands| && s.hands[v].Releasing? && s.hands[v].item.fileIndex == f && s.hands[v].range == r;
        assert s'.hands[v] == s.hands[v];
      }
    }
  }

  lemma ReleaseKeeps(s: State, s': State, w: nat)
    requires ReleaseInv(s) && w < |s.hands| && s.hands[w].Releasing?
    requires s'.hands == s.hands[w := Counting(s.hands[w].item)] && s'.ranges == s.ranges
    requires s'.performed == s.performed + {(s.hands[w].item.fileIndex, s.hands[w].range)}
    ensures ReleaseInv(s')
  {
    forall f, r | 0 <= f < |s'.ranges| && r in s'.ranges[f]
      ensures (f, r) in s'.performed || Pending(s'.hands, f, r)
    {
      if (f, r) !in s'.performed {
        var v :| 0 <= v < |s.hands| && s.hands[v].Releasing? && s.hands[v].item.fileIndex == f && s.hands[v].range == r;
        assert s'.hands[v] == s.hands[v];
      }
    }
  }

  // ----- pop and register ---------------------------------------------------------------------

  lemma PopKeepsHands(cursors: seq<Cursor>, hands: seq<Hand>, w: nat, x: WorkItem)
    requires HandsInv(cursors, hands) && w < |hands| && hands[w].Free?
    requires x.fileIndex < |cursors| && x.chunkIndex < U64_MAX
    requires forall i :: i in cursors[x.fileIndex].inFlight ==> i < x.chunkIndex
    ensures HandsInv(cursors[x.fileIndex := cursors[x.fileIndex].Begin(x.chunkIndex)], hands[w := Begun(x)])
  {
    var cursors', hands' := cursors[x.fileIndex := cursors[x.fileIndex].Begin(x.chunkIndex)], hands[w := Begun(x)];
    assert hands'[w].Reading() && hands'[w].item == x;
    forall f, c | 0 <= f < |cursors'| && c in cursors'[f].inFlight
      ensures HeldBy(hands', f, c)
    {
      if WorkItem(f, c) != x {
        assert c in cursors[f].inFlight;
        var v :| 0 <= v < |hands| && hands[v].Reading() && hands[v].item == WorkItem(f, c);
        assert hands'[v] == hands[v];
      }
    }
  }

  lemma PopKeepsQueue(files: seq<Offered>, cursors: seq<Cursor>, q: seq<WorkItem>)
    requires QueueInv(files, cursors, q) && q != [] && q[0].chunkIndex < U64_MAX
    ensures QueueInv(files, cursors[q[0].fileIndex := cursors[q[0].fileIndex].Begin(q[0].chunkIndex)], q[1..])
  {
    var x := q[0];
    var cursors' := cursors[x.fileIndex := cursors[x.fileIndex].Begin(x.chunkIndex)];
    forall k | 0 <= k < |q[1..]|
      ensures InFiles(files, q[1..][k]) && cursors'[q[1..][k].fileIndex].nextDispatch <= q[1..][k].chunkIndex
    {
      assert Before(q[0], q[k + 1]) && InFiles(files, q[k + 1]);
    }
  }

  lemma PopKeepsInv(files: seq<Offered>, q: seq<WorkItem>, s: State, s': State, w: nat)
    requires Inv(files, q, s) && w < |s.hands| && PopStep(s, s', w)
    ensures Inv(files, q, s')
  {
    hide Ledger, HandsInv, QueueInv, ReleaseInv, BatchLeft;
    var x := s.queue[0];
    HeadFits(files, s.cursors, s.queue);
    var l := files[x.fileIndex].layout;
    BeginKeepsSound(s.cursors[x.fileIndex], l, x.chunkIndex);
    PopKeepsHands(s.cursors, s.hands, w, x);
    PopKeepsQueue(files, s.cursors, s.queue);
    SamePending(s, s', w, Begun(x));
    assert x.chunkIndex in s'.cursors[x.fileIndex].inFlight;
    forall y | y in q
      ensures y in s'.queue || (y.fileIndex < |s'.cursors| && y.chunkIndex < s'.cursors[y.fileIndex].nextDispatch)
    {
      if y in s.queue && y != x {
        var k :| 0 <= k < |s.queue| && s.queue[k] == y;
        assert s'.queue[k - 1] == y;
      }
    }
  }

  lemma HeadFits(files: seq<Offered>, cursors: seq<Cursor>, q: seq<WorkItem>)
    requires QueueInv(files, cursors, q) && q != []
    ensures InFiles(files, q[0]) && |cursors| == |files| && cursors[q[0].fileIndex].nextDispatch <= q[0].chunkIndex
  {
  }

  // ----- finish -----------------------------------------------------------------------------

  /** Letting go of chunk `x` takes exactly it out of flight. */
  lemma FinishKeepsHands(cursors: seq<Cursor>, hands: seq<Hand>, w: nat, h: Hand, c': Cursor)
    requires HandsInv(cursors, hands) && w < |hands| && hands[w].Reading() && !h.Reading()
    requires hands[w].item.fileIndex < |cursors|
    requires c'.inFlight == cursors[hands[w].item.fileIndex].inFlight - {hands[w].item.chunkIndex}
    ensures HandsInv(cursors[hands[w].item.fileIndex := c'], hands[w := h])
  {
    var x := hands[w].item;
    var cursors', hands' := cursors[x.fileIndex := c'], hands[w := h];
    forall f, c | 0 <= f < |cursors'| && c in cursors'[f].inFlight
      ensures HeldBy(hands', f, c)
    {
      assert c in cursors[f].inFlight && WorkItem(f, c) != x;
      var v :| 0 <= v < |hands| && hands[v].Reading() && hands[v].item == WorkItem(f, c);
      assert hands'[v] == hands[v];
    }
  }

  lemma FinishKeepsReleases(s: State, s': State, w: nat, r: Range)
    requires ReleaseInv(s) && w < |s.hands| && s.hands[w].Ended? && s.hands[w].item.fileIndex < |s.ranges|
    requires s'.hands == s.hands[w := Releasing(s.hands[w].item, r)] && s'.performed == s.performed
    requires s'.ranges == s.ranges[s.hands[w].item.fileIndex := s.ranges[s.hands[w].item.fileIndex] + [r]]
    ensures ReleaseInv(s')
  {
    var g := s.hands[w].item.fileIndex;
    forall f, p | 0 <= f < |s'.ranges| && p in s'.ranges[f]
      ensures (f, p) in s'.performed || Pending(s'.hands, f, p)
    {
      if f == g && p == r {
        assert s'.hands[w].Releasing? && s'.hands[w].range == r;
      } else if (f, p) !in s.performed {
        assert p in s.ranges[f];
        var v :| 0 <= v < |s.hands| && s.hands[v].Releasing? && s.hands[v].item.fileIndex == f && s.hands[v].range == p;
        assert s'.hands[v] == s.hands[v];
      }
    }
  }

  /** `finish` on a file's cursor keeps everything the invariant says of that file. */
  lemma FinishKeepsCursor(l: ChunkLayout, c: Cursor, ranges: seq<Range>, index: u64)
    requires l.Valid() && CursorInv(l, c, ranges)
    ensures
      var (c', range) := c.Finish(index, Batch(l), l.chunkSize, l.fileSize);
      && c'.inFlight == c.inFlight - {index} && c'.nextDispatch == c.nextDispatch
      && CursorInv(l, c', if range.Some? then ranges + [range.value] else ranges)
  {
    hide Cursor.Finish, BatchLeft, Ledger;
    FinishReleasesOnlyFinished(c, l, index, Batch(l));
    var (c', range) := c.Finish(index, Batch(l), l.chunkSize, l.fileSize);
    if range.Some? { LedgerGrows(ranges, c.releasedTo, l.chunkSize, range.value); }
  }

  lemma FinishKeepsInv(files: seq<Offered>, q: seq<WorkItem>, s: State, s': State, w: nat)
    requires Inv(files, q, s) && w < |s.hands| && FinishStep(files, s, s', w)
    ensures Inv(files, q, s')
  {
    hide CursorInv, HandsInv, ReleaseInv, Cursor.Finish;
    var x := s.hands[w].item;
    var f := x.fileIndex;
    var l := files[f].layout;
    var (c, range) := s.cursors[f].Finish(x.chunkIndex, Batch(l), l.chunkSize, l.fileSize);
    FinishKeepsCursor(l, s.cursors[f], s.ranges[f], x.chunkIndex);
    FinishKeepsHands(s.cursors, s.hands, w, s'.hands[w], c);
    match range {
      case None => SamePending(s, s', w, Counting(x));
      case Some(r) => FinishKeepsReleases(s, s', w, r);
    }
  }

  /** Every step of every worker keeps the invariant. */
  lemma NextKeepsInv(files: seq<Offered>, q: seq<WorkItem>, s: State, s': State, step: Step)
    requires Inv(files, q, s) && Next(files, s, s', step)
    ensures Inv(files, q, s')
  {
    hide CursorsInv, HandsInv, ReleaseInv, QueueInv, PopStep, FinishStep;
    match step {
      case Pop(w) => PopKeepsInv(files, q, s, s', w);
      case Finish(w) => FinishKeepsInv(files, q, s, s', w);
      case Release(w) =>
        SameGrip(s.cursors, s.hands, w, s'.hands[w]);
        ReleaseKeeps(s, s', w);
      case _ =>
        SameGrip(s.cursors, s.hands, step.w, s'.hands[step.w]);
        SamePending(s, s', step.w, s'.hands[step.w]);
    }
  }

  lemma {:induction false} RunKeepsInv(files: seq<Offered>, q: seq<WorkItem>, states: seq<State>, steps: seq<Step>,
                                       k: nat)
    requires LayoutsValid(files) && Dispatchable(files, q) && IsRun(files, q, states, steps) && k < |states|
    ensures Inv(files, q, states[k])
  {
    hide Inv, Next, Init, Dispatchable, LayoutsValid;
    if k == 0 {
      InitHasInv(files, q, states[0]);
    } else {
      RunKeepsInv(files, q, states, steps, k - 1);
      NextKeepsInv(files, q, states[k - 1], states[k], steps[k - 1]);
    }
  }

  // ----- page-release safety --------------------------------------------------------------------

  /** A range, once handed out, stays in the file's history. */
  lemma {:induction false} RangesStay(files: seq<Offered>, q: seq<WorkItem>, states: seq<State>, steps: seq<Step>,
                                      i: nat, j: nat, f: nat, r: Range)
    requires IsRun(files, q, states, steps) && i <= j < |states|
    requires f < |states[i].ranges| && r in states[i].ranges[f]
    ensures f < |states[j].ranges| && r in states[j].ranges[f]
    decreases j
  {
    hide Init, PopStep;
    if i < j {
      RangesStay(files, q, states, steps, i, j - 1, f, r);
      RangeStays(files, states[j - 1], states[j], steps[j - 1], f, r);
    }
  }

  lemma RangeStays(files: seq<Offered>, s: State, s': State, step: Step, f: nat, r: Range)
    requires Next(files, s, s', step) && f < |s.ranges| && r in s.ranges[f]
    ensures f < |s'.ranges| && r in s'.ranges[f]
  {
    hide Cursor.Finish, Cursor.Begin;
  }

  /** A chunk that a worker holds, or could still obtain: in some hand up to the end of its borrow, or queued. */
  ghost predicate Obtainable(s: State, x: WorkItem) {
    HeldBy(s.hands, x.fileIndex, x.chunkIndex) || x in s.queue
  }

  /** In one state: no range ever handed out reaches a chunk that is held or still to be dealt. */
  lemma HistoryIsBehind(files: seq<Offered>, q: seq<WorkItem>, s: State, f: nat, r: Range, x: WorkItem)
    requires Inv(files, q, s) && f < |s.ranges| && r in s.ranges[f] && Obtainable(s, x) && x.fileIndex == f
    ensures InFiles(files, x) && r.1 <= files[f].layout.Start(x.chunkIndex)
  {
    var c, l := s.cursors[f], files[f].layout;
    assert CursorInv(l, c, s.ranges[f]);
    if HeldBy(s.hands, x.fileIndex, x.chunkIndex) {
      assert x.chunkIndex in c.inFlight;
    } else {
      MulMonotone(c.nextDispatch, x.chunkIndex, l.chunkSize);
    }
  }

  /** Page-release safety. In every run, a range that some worker is about to release (or has been
      handed at any earlier moment) lies wholly below every chunk of that file that any worker holds then,
      holds later, or could still be dealt, although the release runs outside both locks. */
  lemma ReleaseMeetsNoBorrow(files: seq<Offered>, q: seq<WorkItem>, states: seq<State>, steps: seq<Step>,
                             i: nat, j: nat, w: nat, x: WorkItem, pageSize: nat)
    requires LayoutsValid(files) && Dispatchable(files, q) && IsRun(files, q, states, steps) && i <= j < |states|
    requires w < |states[i].hands| && states[i].hands[w].Releasing?
    requires Obtainable(states[j], x) && x.fileIndex == states[i].hands[w].item.fileIndex
    requires pageSize > 0
    ensures InFiles(files, x)
    ensures states[i].hands[w].range.1 <= files[x.fileIndex].layout.Start(x.chunkIndex)
    ensures forall p: nat :: Drops(states[i].hands[w].range, pageSize, p) ==>
              p < files[x.fileIndex].layout.Start(x.chunkIndex)
  {
    hide Next, Init, CursorsInv, QueueInv, HandsInv, Dealt, Dispatchable, LayoutsValid, InFiles;
    RunKeepsInv(files, q, states, steps, i);
    RunKeepsInv(files, q, states, steps, j);
    var f, r := x.fileIndex, states[i].hands[w].range;
    RangesStay(files, q, states, steps, i, j, f, r);
    HistoryIsBehind(files, q, states[j], f, r, x);
  }

  // ----- release progress -------------------------------------------------------------------------

  /** No worker holds a chunk or owes a release. */
  ghost predicate AtRest(s: State) {
    s.queue == [] && forall w :: 0 <= w < |s.hands| ==> s.hands[w].Free? || s.hands[w].Gone?
  }

  /** In every state of every run the ranges of a file follow each other from 0 without a gap, none
      empty, all inside the file, each at least 32 MiB and at least one chunk long. */
  lemma RangesAreContiguous(files: seq<Offered>, q: seq<WorkItem>, states: seq<State>, steps: seq<Step>, k: nat, f: nat)
    requires LayoutsValid(files) && Dispatchable(files, q) && IsRun(files, q, states, steps) && k < |states|
      && f < |files|
    ensures |states[k].ranges| == |states[k].cursors| == |files|
    ensures Ledger(states[k].ranges[f], states[k].cursors[f].releasedTo, files[f].layout.chunkSize)
    ensures states[k].cursors[f].releasedTo <= files[f].layout.fileSize
    ensures forall n :: 0 <= n < |states[k].ranges[f]| ==>
              states[k].ranges[f][n].0 + Max(32 * 1024 * 1024, files[f].layout.chunkSize) <= states[k].ranges[f][n].1
  {
    hide Next, Init, QueueInv, HandsInv, ReleaseInv, Dealt, Ledger;
    RunKeepsInv(files, q, states, steps, k);
    assert CursorInv(files[f].layout, states[k].cursors[f], states[k].ranges[f]);
  }

  /** No worker that is reading file `f` holds a chunk that starts below byte `b`. */
  ghost predicate NoneBelow(files: seq<Offered>, hands: seq<Hand>, f: nat, b: nat)
    requires f < |files|
  {
    forall v :: 0 <= v < |hands| && hands[v].Reading() && hands[v].item.fileIndex == f ==>
      b <= files[f].layout.Start(hands[v].item.chunkIndex)
  }

  /** Directly after any `finish` in any run: whatever lies inside a chunk that has been dealt and below
      every chunk of the file still being read has been handed out for release, up to less than a batch of 32 MiB
      or one chunk, whichever is larger. */
  lemma FinishLeavesUnderABatch(files: seq<Offered>, q: seq<WorkItem>, states: seq<State>, steps: seq<Step>, k: nat,
                                x: WorkItem, b: nat)
    requires LayoutsValid(files) && Dispatchable(files, q) && IsRun(files, q, states, steps) && k < |steps|
    requires steps[k].Finish? && steps[k].w < |states[k].hands| && states[k].hands[steps[k].w].Ended?
    requires states[k].hands[steps[k].w].item.fileIndex == x.fileIndex && x in q && x !in states[k + 1].queue
    requires InFiles(files, x) && NoneBelow(files, states[k + 1].hands, x.fileIndex, b)
    requires b <= files[x.fileIndex].layout.Start(x.chunkIndex) + files[x.fileIndex].layout.Len(x.chunkIndex)
    ensures x.fileIndex < |states[k + 1].cursors|
    ensures b < states[k + 1].cursors[x.fileIndex].releasedTo + Max(32 * 1024 * 1024,
      files[x.fileIndex].layout.chunkSize)
  {
    hide Next, Init, QueueInv, ReleaseInv;
    var s, s', w, f := states[k], states[k + 1], steps[k].w, x.fileIndex;
    var l := files[f].layout;
    RunKeepsInv(files, q, states, steps, k);
    RunKeepsInv(files, q, states, steps, k + 1);
    assert Next(files, s, s', steps[k]);
    FinishLeft(files, s, s', w);
    var c := s'.cursors[f];
    assert CursorInv(l, c, s'.ranges[f]);
    HeldAreAhead(files, s'.cursors, s'.hands, f, b);
    MulMonotone(x.chunkIndex + 1, c.nextDispatch, l.chunkSize);
    StartInside(l, x.chunkIndex);
    assert Releasable(c, l, b);
  }

  lemma FinishLeft(files: seq<Offered>, s: State, s': State, w: nat)
    requires LayoutsValid(files) && CursorsInv(files, s.cursors, s.ranges) && w < |s.hands| && s.hands[w].Ended?
    requires s.hands[w].item.fileIndex < |files| && Next(files, s, s', Finish(w))
    ensures
      var f := s.hands[w].item.fileIndex;
      f < |s'.cursors| && BatchLeft(s'.cursors[f], files[f].layout, Batch(files[f].layout))
  {
    hide Cursor.Finish, BatchLeft, Ledger;
    var x := s.hands[w].item;
    var l := files[x.fileIndex].layout;
    FinishReleasesOnlyFinished(s.cursors[x.fileIndex], l, x.chunkIndex, Batch(l));
  }

  lemma HeldAreAhead(files: seq<Offered>, cursors: seq<Cursor>, hands: seq<Hand>, f: nat, b: nat)
    requires HandsInv(cursors, hands) && f < |files| && f < |cursors| && NoneBelow(files, hands, f, b)
    ensures forall c :: c in cursors[f].inFlight ==> b <= files[f].layout.Start(c)
  {
    forall c | c in cursors[f].inFlight
      ensures b <= files[f].layout.Start(c)
    {
      assert HeldBy(hands, f, c);
    }
  }

  /** A worker that has neither stopped nor failed can always move: nobody waits for another worker's
      chunk, borrow or release. */
  lemma WorkerCanMove(files: seq<Offered>, q: seq<WorkItem>, s: State, w: nat) returns (s': State, step: Step)
    requires Inv(files, q, s) && w < |s.hands| && !s.hands[w].Gone? && !s.hands[w].Broken?
    ensures step.w == w && !step.Fail? && Next(files, s, s', step)
  {
    hide CursorsInv, HandsInv, ReleaseInv, Dealt, QueueInv, Cursor.Finish, Cursor.Begin;
    InvShapes(files, q, s, w);
    var h := s.hands[w];
    match h {
      case Free =>
        if s.queue == [] {
          step := Quit(w);
          s' := s.(hands := s.hands[w := Gone]);
        } else {
          HeadFits(files, s.cursors, s.queue);
          var x := s.queue[0];
          step := Pop(w);
          s' := s.(queue := s.queue[1..], hands := s.hands[w := Begun(x)],
                   cursors := s.cursors[x.fileIndex := s.cursors[x.fileIndex].Begin(x.chunkIndex)]);
        }
      case Begun(x) =>
        step := Borrow(w);
        s' := s.(hands := s.hands[w := Borrowing(x)]);
      case Borrowing(x) =>
        step := EndBorrow(w);
        s' := s.(hands := s.hands[w := Ended(x)]);
      case Ended(x) =>
        var l := files[x.fileIndex].layout;
        var (c, range) := s.cursors[x.fileIndex].Finish(x.chunkIndex, Batch(l), l.chunkSize, l.fileSize);
        step := Finish(w);
        if range.None? {
          s' := s.(cursors := s.cursors[x.fileIndex := c], hands := s.hands[w := Counting(x)]);
        } else {
          s' := s.(cursors := s.cursors[x.fileIndex := c], hands := s.hands[w := Releasing(x, range.value)],
                   ranges := s.ranges[x.fileIndex := s.ranges[x.fileIndex] + [range.value]]);
        }
      case Releasing(x, r) =>
        step := Release(w);
        s' := s.(hands := s.hands[w := Counting(x)], performed := s.performed + {(x.fileIndex, r)});
      case Counting(x) =>
        step := Count(w);
        s' := s.(hands := s.hands[w := Free], sent := s.sent + Weight(files, x));
    }
  }

  lemma InvShapes(files: seq<Offered>, q: seq<WorkItem>, s: State, w: nat)
    requires Inv(files, q, s) && w < |s.hands|
    ensures |s.cursors| == |s.ranges| == |files|
    ensures s.hands[w].Reading() ==> s.hands[w].item.fileIndex < |files|
  {
  }

  ghost predicate DroppedBy(s: State, f: nat, pageSize: nat, p: nat)
    requires pageSize > 0
  {
    exists r :: (f, r) in s.performed && Drops(r, pageSize, p)
  }

  /** When the workers are done, the pages dropped are exactly the whole pages below the cursor, and
      of every chunk that was dealt less than one batch past the cursor is still mapped. */
  lemma RestDropsAllButABatch(files: seq<Offered>, q: seq<WorkItem>, states: seq<State>, steps: seq<Step>, k: nat,
                              f: nat, pageSize: nat)
    requires LayoutsValid(files) && Dispatchable(files, q) && IsRun(files, q, states, steps) && k < |states|
    requires AtRest(states[k]) && f < |files| && pageSize > 0 && files[f].layout.chunkSize % pageSize == 0
    ensures |states[k].cursors| == |files|
    ensures
      var to := states[k].cursors[f].releasedTo;
      && (forall p: nat :: DroppedBy(states[k], f, pageSize, p) <==> p < (to / pageSize) * pageSize)
      && (forall x :: x in q && x.fileIndex == f ==>
            InFiles(files, x) && files[f].layout.Start(x.chunkIndex) + files[f].layout.Len(x.chunkIndex)
              < to + Max(32 * 1024 * 1024, files[f].layout.chunkSize))
  {
    hide Next, Init, QueueInv, Drops;
    RunKeepsInv(files, q, states, steps, k);
    var s, l := states[k], files[f].layout;
    assert CursorInv(l, s.cursors[f], s.ranges[f]);
    forall p: nat
      ensures DroppedBy(s, f, pageSize, p) <==> p < (s.cursors[f].releasedTo / pageSize) * pageSize
    {
      RestDrops(s, f, pageSize, p);
      LedgerDropsWholePages(s.ranges[f], s.cursors[f].releasedTo, l.chunkSize, pageSize, p);
    }
    forall x | x in q && x.fileIndex == f
      ensures InFiles(files, x) && l.Start(x.chunkIndex) + l.Len(x.chunkIndex) < s.cursors[f].releasedTo + Batch(l)
    {
      NothingInFlight(s, f);
      DealtEndsBelow(l, s.cursors[f], x.chunkIndex);
    }
  }

  lemma RestDrops(s: State, f: nat, pageSize: nat, p: nat)
    requires ReleaseInv(s) && AtRest(s) && f < |s.ranges| && pageSize > 0
    ensures DroppedBy(s, f, pageSize, p) <==> SomeDrops(s.ranges[f], pageSize, p)
  {
    hide Drops;
    if DroppedBy(s, f, pageSize, p) {
      var r :| (f, r) in s.performed && Drops(r, pageSize, p);
      assert (f, r).1 in s.ranges[f];
    }
    if SomeDrops(s.ranges[f], pageSize, p) {
      var n :| 0 <= n < |s.ranges[f]| && Drops(s.ranges[f][n], pageSize, p);
      assert s.ranges[f][n] in s.ranges[f];
    }
  }

  lemma NothingInFlight(s: State, f: nat)
    requires HandsInv(s.cursors, s.hands) && AtRest(s) && f < |s.cursors|
    ensures s.cursors[f].inFlight == {}
  {
    if c :| c in s.cursors[f].inFlight { assert false; }
  }

  lemma DealtEndsBelow(l: ChunkLayout, c: Cursor, i: u64)
    requires Sound(c, l) && c.inFlight == {} && i < c.nextDispatch
      && BatchLeft(c, l, Batch(l))
    ensures i < l.count && l.Start(i) + l.Len(i) < c.releasedTo + Batch(l)
  {
    MulMonotone(i + 1, c.nextDispatch, l.chunkSize);
    assert (i + 1) * l.chunkSize == l.Start(i) + l.chunkSize;
    assert Releasable(c, l, l.Start(i) + l.Len(i));
  }

  // ----- the sender's byte counter --------------------------------------------------------------------

  ghost function HandWeight(files: seq<Offered>, h: Hand): nat {
    if h.Carrying() then Weight(files, h.item) else 0
  }

  /** The bytes of the chunks the workers carry. */
  ghost function Carried(files: seq<Offered>, hands: seq<Hand>): nat {
    if hands == [] then 0 else HandWeight(files, hands[0]) + Carried(files, hands[1..])
  }

  lemma {:induction false} CarriedUpdate(files: seq<Offered>, hands: seq<Hand>, w: nat, h: Hand)
    requires w < |hands|
    ensures Carried(files, hands[w := h]) + HandWeight(files, hands[w]) == Carried(files, hands) + HandWeight(files, h)
  {
    if w == 0 {
      assert hands[w := h][1..] == hands[1..];
    } else {
      CarriedUpdate(files, hands[1..], w - 1, h);
      assert hands[w := h][1..] == hands[1..][w - 1 := h];
    }
  }

  lemma {:induction false} NothingCarried(files: seq<Offered>, hands: seq<Hand>)
    requires forall w :: 0 <= w < |hands| && hands[w].Carrying() ==> InFiles(files, hands[w].item)
    requires LayoutsValid(files)
    ensures Carried(files, hands) == 0 <==> forall w :: 0 <= w < |hands| ==> !hands[w].Carrying()
  {
    if hands != [] {
      NothingCarried(files, hands[1..]);
      assert forall w :: 0 < w < |hands| ==> hands[w] == hands[1..][w - 1];
    }
  }

  /** Every byte of the queue is queued, carried or counted. */
  ghost predicate Conserved(files: seq<Offered>, q: seq<WorkItem>, s: State) {
    && s.sent + Carried(files, s.hands) + ItemBytes(files, s.queue) == ItemBytes(files, q)
    && (forall k :: 0 <= k < |s.queue| ==> InFiles(files, s.queue[k]))
    && (forall w :: 0 <= w < |s.hands| && s.hands[w].Carrying() ==> InFiles(files, s.hands[w].item))
  }

  lemma {:induction false} FreeHandsCarryNothing(files: seq<Offered>, hands: seq<Hand>)
    requires forall w :: 0 <= w < |hands| ==> hands[w] == Free
    ensures Carried(files, hands) == 0
  {
    if hands != [] { FreeHandsCarryNothing(files, hands[1..]); }
  }

  lemma NextConserves(files: seq<Offered>, q: seq<WorkItem>, s: State, s': State, step: Step)
    requires Conserved(files, q, s) && Next(files, s, s', step)
    ensures Conserved(files, q, s')
  {
    hide Cursor.Finish, Cursor.Begin, Weight, ItemBytes;
    CarriedUpdate(files, s.hands, step.w, s'.hands[step.w]);
    if step.Pop? { HeadWeighs(files, s.queue); }
  }

  lemma HeadWeighs(files: seq<Offered>, q: seq<WorkItem>)
    requires q != []
    ensures ItemBytes(files, q) == Weight(files, q[0]) + ItemBytes(files, q[1..])
    ensures forall k :: 0 <= k < |q[1..]| ==> q[1..][k] == q[k + 1]
  {
    assert q == [q[0]] + q[1..];
    ItemBytesConcat(files, [q[0]], q[1..]);
    ItemBytesPush(files, [], q[0]);
    assert [] + [q[0]] == [q[0]];
  }

  lemma {:induction false} RunConserves(files: seq<Offered>, q: seq<WorkItem>, states: seq<State>, steps: seq<Step>,
                                        k: nat)
    requires Dispatchable(files, q) && IsRun(files, q, states, steps) && k < |states|
    ensures Conserved(files, q, states[k])
  {
    hide Next;
    if k == 0 {
      FreeHandsCarryNothing(files, states[0].hands);
    } else {
      RunConserves(files, q, states, steps, k - 1);
      NextConserves(files, q, states[k - 1], states[k], steps[k - 1]);
    }
  }

  /** The `sent` counter never passes `bytes_to_send`, and equals it exactly when nothing is queued and
      no worker carries a chunk: so the reports end at the total and no earlier report shows it. */
  lemma SentEndsAtTotal(files: seq<Offered>, held: seq<Option<set<nat>>>, states: seq<State>, steps: seq<Step>, k: nat)
    requires LayoutsValid(files) && |files| == |held|
    requires IsRun(files, Queue(files, held), states, steps) && k < |states|
    ensures states[k].sent <= QueueTotal(files, held)
    ensures states[k].sent == QueueTotal(files, held) <==>
            states[k].queue == [] && forall w :: 0 <= w < |states[k].hands| ==> !states[k].hands[w].Carrying()
  {
    hide Next, Queue, QueueTotal, Weight, Init;
    var q, s := Queue(files, held), states[k];
    BuiltQueueIsDispatchable(files, held);
    QueueWeighsTotal(files, held);
    RunConserves(files, q, states, steps, k);
    NothingCarried(files, s.hands);
    NothingQueued(files, s.queue);
  }

  lemma NothingQueued(files: seq<Offered>, q: seq<WorkItem>)
    requires LayoutsValid(files) && forall k :: 0 <= k < |q| ==> InFiles(files, q[k])
    ensures ItemBytes(files, q) == 0 <==> q == []
  {
    if q != [] { assert InFiles(files, q[|q| - 1]); }
  }

  /** The queue the sender builds meets what the scheduler theorems ask of it. */
  lemma BuiltQueueIsDispatchable(files: seq<Offered>, held: seq<Option<set<nat>>>)
    requires |files| == |held|
    ensures Dispatchable(files, Queue(files, held))
  {
    hide Queue;
    QueueExact(files, held);
  }
}
