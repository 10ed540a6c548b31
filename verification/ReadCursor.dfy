// The sender's read cursor (aetherlink-core send.rs) and the page release it drives
// (io.rs): chunks of a file are handed out in order, finish out of order, and pages are
// released behind the lowest chunk still being read.

module ReadCursors {
  import opened Base
  import opened Layout

  const RELEASE_BATCH_BYTES: u64 := 32 * 1024 * 1024

  /** The batch the sender passes to `finish`. */
  function Batch(l: ChunkLayout): (b: nat)
    ensures b > 0
  {
    Max(RELEASE_BATCH_BYTES, l.chunkSize)
  }

  /** The value of a read cursor. `nextDispatch` is one past the highest index handed out. */
  datatype Cursor = Cursor(inFlight: set<u64>, nextDispatch: u64, releasedTo: u64) {

    /** The lowest chunk still being read, or the dispatch point if there is none. */
    function BoundaryChunk(): (i: u64) {
      if inFlight == {} then nextDispatch else Lowest(inFlight)
    }

    /** Everything below this byte offset has been read. */
    function Boundary(chunkSize: u64, fileSize: u64): (b: u64)
      ensures b == Min(BoundaryChunk() * chunkSize, fileSize)
    {
      Min(SaturatingMul(BoundaryChunk(), chunkSize), fileSize)
    }

    function Begin(index: u64): (c: Cursor)
      requires index < U64_MAX
    {
      Cursor(inFlight + {index}, Max(nextDispatch, index + 1), releasedTo)
    }

    function Finish(index: u64, batch: nat, chunkSize: u64, fileSize: u64): (r: (Cursor, Option<(u64, u64)>)) {
      var c := this.(inFlight := inFlight - {index});
      var boundary := c.Boundary(chunkSize, fileSize);
      if SaturatingSub(boundary, releasedTo) < batch then (c, None)
      else (c.(releasedTo := boundary), Some((releasedTo, boundary)))
    }
  }

  const FRESH: Cursor := Cursor({}, 0, 0)

  /** `BTreeSet::first`. */
  function Lowest(s: set<u64>): (m: u64)
    requires s != {}
    ensures m in s && forall x :: x in s ==> m <= x
  {
    assert exists m :: m in s && forall x :: x in s ==> m <= x by {
      var y :| y in s;
      HasLowest(s, y);
    }
    var m :| m in s && forall x :: x in s ==> m <= x;
    m
  }

  lemma {:induction false} HasLowest(s: set<u64>, y: u64)
    requires y in s
    ensures exists m :: m in s && forall x :: x in s ==> m <= x
    decreases y
  {
    if x :| x in s && x < y { HasLowest(s, x); }
  }

  /** The cursor object, shared by the workers under its lock. */
  class ReadCursor {
    var inFlight: set<u64>
    var nextDispatch: u64
    var releasedTo: u64

    function View(): Cursor
      reads this
    {
      Cursor(inFlight, nextDispatch, releasedTo)
    }

    constructor ()
      ensures View() == FRESH
    {
      inFlight, nextDispatch, releasedTo := {}, 0, 0;
    }

    method Begin(index: u64)
      requires index < U64_MAX
      modifies this
      ensures View() == old(View()).Begin(index)
    {
      inFlight := inFlight + {index};
      if nextDispatch < index + 1 { nextDispatch := index + 1; }
    }

    method Finish(index: u64, batch: nat, chunkSize: u64, fileSize: u64) returns (range: Option<(u64, u64)>)
      modifies this
      ensures (View(), range) == old(View()).Finish(index, batch, chunkSize, fileSize)
    {
      inFlight := inFlight - {index};
      var boundaryChunk := nextDispatch;
      if inFlight != {} { boundaryChunk := Lowest(inFlight); }
      var boundary := Min(SaturatingMul(boundaryChunk, chunkSize), fileSize);
      if SaturatingSub(boundary, releasedTo) < batch { return None; }
      range := Some((releasedTo, boundary));
      releasedTo := boundary;
    }
  }

  // ----- what a cursor keeps ------------------------------------------------------

  /** Nothing in flight, and nothing still to be dispatched, lies below what has been released. */
  ghost predicate Sound(c: Cursor, l: ChunkLayout) {
    && l.Valid() && c.nextDispatch <= l.count
    && (forall i :: i in c.inFlight ==> i < c.nextDispatch && c.releasedTo <= l.Start(i))
    && c.releasedTo <= l.Start(c.nextDispatch) && c.releasedTo <= l.fileSize
    && (c.releasedTo < l.fileSize ==> c.releasedTo % l.chunkSize == 0)
  }

  /** Everything below byte `b` has been read: no chunk in flight or still to be dispatched starts below it. */
  ghost predicate Releasable(c: Cursor, l: ChunkLayout, b: nat) {
    b <= l.fileSize && b <= l.Start(c.nextDispatch) && forall i :: i in c.inFlight ==> b <= l.Start(i)
  }

  /** Of what has been read, less than a batch is still to be released. */
  ghost predicate BatchLeft(c: Cursor, l: ChunkLayout, batch: nat) {
    forall b: nat :: Releasable(c, l, b) ==> b < c.releasedTo + batch
  }

  lemma FreshIsSound(l: ChunkLayout)
    requires l.Valid()
    ensures Sound(FRESH, l)
  {
  }

  lemma BeginKeepsSound(c: Cursor, l: ChunkLayout, i: u64)
    requires l.Valid() && Sound(c, l) && c.nextDispatch <= i < l.count
    ensures Sound(c.Begin(i), l)
  {
    MulMonotone(c.nextDispatch, i, l.chunkSize);
    MulMonotone(c.nextDispatch, i + 1, l.chunkSize);
  }

  /** Finishing a chunk keeps the cursor sound. A range it hands out starts where the last one ended,
      is at least one batch long and ends exactly at the highest byte below which everything has been read; and
      with or without a range, less than one batch of what has been read remains to be released. */
  lemma FinishReleasesOnlyFinished(c: Cursor, l: ChunkLayout, index: u64, batch: nat)
    requires l.Valid() && Sound(c, l) && batch > 0
    ensures
      var (c', range) := c.Finish(index, batch, l.chunkSize, l.fileSize);
      && Sound(c', l) && c'.inFlight == c.inFlight - {index} && c'.nextDispatch == c.nextDispatch
      && BatchLeft(c', l, batch)
      && (range.None? ==> c'.releasedTo == c.releasedTo)
      && (range.Some? ==>
            && range.value == (c.releasedTo, c'.releasedTo) && c.releasedTo + batch <= c'.releasedTo
            && Releasable(c', l, c'.releasedTo) && (forall b: nat :: Releasable(c', l, b) ==> b <= c'.releasedTo)
            && c.releasedTo % l.chunkSize == 0)
  {
    var c1 := c.(inFlight := c.inFlight - {index});
    var b := c1.BoundaryChunk();
    forall i | i in c1.inFlight
      ensures l.Start(b) <= l.Start(i)
    {
      MulMonotone(b, i, l.chunkSize);
    }
    MulMonotone(b, c.nextDispatch, l.chunkSize);
    MultipleOf(b, l.chunkSize);
    assert l.Start(b) == b * l.chunkSize;
  }

  lemma MultipleOf(k: nat, d: nat)
    requires d > 0
    ensures (k * d) % d == 0
  {
    var n := k * d;
    assert (k + 1) * d == n + d;
    QuotientIs(n, d, k);
    assert n == (n / d) * d + n % d;
  }

  /** Why `begin` runs under the queue lock: if chunk 0 has been popped but not registered, a
      second worker finishing chunk 1 is told that chunk 0's bytes may be released. */
  lemma UnregisteredChunkIsExposed(l: ChunkLayout)
    requires l.Valid() && l.chunkSize == MAX_CHUNK_SIZE && l.count >= 2
    ensures
      var (_, range) := FRESH.Begin(1).Finish(1, Batch(l), l.chunkSize, l.fileSize);
      range.Some? && range.value.0 == l.Start(0) && l.Start(0) + l.Len(0) <= range.value.1
  {
    var c := FRESH.Begin(1).(inFlight := {1} - {1});
    assert c.inFlight == {} && c.BoundaryChunk() == 2;
    StartInside(l, 1);
  }

  // ----- the history of released ranges ---------------------------------------------

  /** Ranges that follow each other from 0 up to `end`, each non-empty and starting on a chunk. */
  ghost predicate Ledger(ranges: seq<(u64, u64)>, end: nat, chunkSize: nat)
    requires chunkSize > 0
  {
    && (|ranges| == 0 ==> end == 0)
    && (|ranges| > 0 ==> ranges[0].0 == 0 && ranges[|ranges| - 1].1 == end)
    && (forall k :: 0 <= k < |ranges| ==> ranges[k].0 < ranges[k].1 <= end && ranges[k].0 % chunkSize == 0)
    && (forall k :: 0 < k < |ranges| ==> ranges[k].0 == ranges[k - 1].1)
  }

  lemma LedgerGrows(ranges: seq<(u64, u64)>, end: nat, chunkSize: nat, r: (u64, u64))
    requires chunkSize > 0 && Ledger(ranges, end, chunkSize) && r.0 == end < r.1 && end % chunkSize == 0
    ensures Ledger(ranges + [r], r.1, chunkSize)
  {
  }

  lemma LedgerPrefix(ranges: seq<(u64, u64)>, end: nat, chunkSize: nat)
    requires chunkSize > 0 && Ledger(ranges, end, chunkSize) && ranges != []
    ensures Ledger(ranges[..|ranges| - 1], ranges[|ranges| - 1].0, chunkSize)
  {
    LedgerSorted(ranges, end, chunkSize, |ranges| - 1);
  }

  lemma {:induction false} LedgerSorted(ranges: seq<(u64, u64)>, end: nat, chunkSize: nat, n: nat)
    requires chunkSize > 0 && Ledger(ranges, end, chunkSize) && n < |ranges|
    ensures forall k :: 0 <= k < n ==> ranges[k].1 <= ranges[n].0
  {
    if n > 0 { LedgerSorted(ranges, end, chunkSize, n - 1); }
  }

  /** `release_range`: the whole pages inside `[start, end)`, as a half-open byte range. */
  function WholePages(range: (u64, u64), pageSize: nat): (r: Option<(nat, nat)>)
    requires pageSize > 0
    ensures r.Some? ==> range.0 <= r.value.0 < r.value.1 <= range.1
  {
    var first := DivCeil(range.0, pageSize) * pageSize;
    var last := (range.1 / pageSize) * pageSize;
    CeilAbove(range.0, pageSize);
    QuotientBelow(range.1, pageSize);
    if last <= first then None else Some((first, last))
  }

  lemma CeilAbove(n: nat, d: nat)
    requires d > 0
    ensures n <= DivCeil(n, d) * d
    ensures n % d == 0 ==> DivCeil(n, d) * d == n
  {
    QuotientBelow(n, d);
    assert n == (n / d) * d + n % d;
  }

  /** Byte `p` is dropped when `range` is released. */
  ghost predicate Drops(range: (u64, u64), pageSize: nat, p: nat)
    requires pageSize > 0
  {
    var r := WholePages(range, pageSize);
    r.Some? && r.value.0 <= p < r.value.1
  }

  /** Where a range starts on a page boundary, rounding costs only the partial page at its end. */
  lemma DropsAligned(range: (u64, u64), pageSize: nat, p: nat)
    requires pageSize > 0 && range.0 % pageSize == 0
    ensures Drops(range, pageSize, p) <==> range.0 <= p < (range.1 / pageSize) * pageSize
  {
    CeilAbove(range.0, pageSize);
  }

  ghost predicate SomeDrops(ranges: seq<(u64, u64)>, pageSize: nat, p: nat)
    requires pageSize > 0
  {
    exists k :: 0 <= k < |ranges| && Drops(ranges[k], pageSize, p)
  }

  lemma SomeDropsPush(init: seq<(u64, u64)>, last: (u64, u64), pageSize: nat, p: nat)
    requires pageSize > 0
    ensures SomeDrops(init + [last], pageSize, p) <==> SomeDrops(init, pageSize, p) || Drops(last, pageSize, p)
  {
    hide Drops;
    var ranges := init + [last];
    if SomeDrops(init, pageSize, p) {
      var k :| 0 <= k < |init| && Drops(init[k], pageSize, p);
      assert Drops(ranges[k], pageSize, p);
    }
    if Drops(last, pageSize, p) { assert Drops(ranges[|init|], pageSize, p); }
  }

  /** When pages divide chunks, the releases so far drop exactly the whole pages below `end`. */
  lemma {:induction false} LedgerDropsWholePages(ranges: seq<(u64, u64)>, end: nat, chunkSize: nat, pageSize: nat,
                                                 p: nat)
    requires chunkSize > 0 && pageSize > 0 && chunkSize % pageSize == 0 && Ledger(ranges, end, chunkSize)
    ensures SomeDrops(ranges, pageSize, p) <==> p < (end / pageSize) * pageSize
  {
    hide Drops;
    if ranges != [] {
      var n := |ranges| - 1;
      var init, last := ranges[..n], ranges[n];
      assert ranges == init + [last];
      LedgerPrefix(ranges, end, chunkSize);
      LedgerDropsWholePages(init, last.0, chunkSize, pageSize, p);
      SomeDropsPush(init, last, pageSize, p);
      DividesThrough(last.0, chunkSize, pageSize);
      DropsAligned(last, pageSize, p);
      CeilAbove(last.0, pageSize);
      QuotientMonotone(last.0, last.1, pageSize);
    }
  }

  lemma DividesThrough(n: nat, c: nat, d: nat)
    requires c > 0 && d > 0 && n % c == 0 && c % d == 0
    ensures n % d == 0
  {
    var q, k := n / c, c / d;
    assert n == c * q && c == d * k;
    assert n == (q * k) * d;
    MultipleOf(q * k, d);
  }

  lemma FactorsOrdered(p: nat, q: nat, d: nat)
    requires p * d < (q + 1) * d
    ensures p <= q
  {
    if q < p { MulMonotone(q + 1, p, d); }
  }

  lemma QuotientMonotone(a: nat, b: nat, d: nat)
    requires d > 0 && a <= b
    ensures (a / d) * d <= (b / d) * d
    ensures a % d == 0 ==> (a / d) * d == a
  {
    assert a == (a / d) * d + a % d;
    QuotientBelow(a, d);
    QuotientBelow(b, d);
    FactorsOrdered(a / d, b / d, d);
    MulMonotone(a / d, b / d, d);
  }
}
