// What still has to travel: the runs of missing chunks (aetherlink-proto
// bitmap.rs), the sender's work queue built from them (aetherlink-core send.rs),
// and the byte counters both ends report.

module WorkQueue {
  import opened Base
  import opened Layout
  import opened Bitmaps

  // ----- missing runs -------------------------------------------------------

  type Run = (u64, u64)

  /** Non-empty, sorted, disjoint and not even adjacent half-open ranges. */
  ghost predicate Coalesced(runs: seq<Run>) {
    && (forall k :: 0 <= k < |runs| ==> runs[k].0 < runs[k].1)
    && (forall j, k :: 0 <= j < k < |runs| ==> runs[j].1 < runs[k].0)
  }

  ghost predicate Covers(runs: seq<Run>, i: nat) {
    exists k :: 0 <= k < |runs| && runs[k].0 <= i < runs[k].1
  }

  lemma CoversPush(runs: seq<Run>, r: Run, i: nat)
    ensures Covers(runs + [r], i) <==> Covers(runs, i) || r.0 <= i < r.1
  {
    var both := runs + [r];
    if Covers(runs, i) {
      var k :| 0 <= k < |runs| && runs[k].0 <= i < runs[k].1;
      assert both[k] == runs[k];
    }
    if r.0 <= i < r.1 { assert both[|runs|] == r; }
  }

  /** The runs found among the first `i` bits, with one run possibly still open. */
  ghost predicate Scanned(v: Bitmap, runs: seq<Run>, open: Option<u64>, i: nat)
    requires v.Valid()
  {
    && Coalesced(runs)
    && (forall k :: 0 <= k < |runs| ==> runs[k].1 < i)
    && (open.Some? ==> open.value < i && forall k :: 0 <= k < |runs| ==> runs[k].1 < open.value)
    && (forall j: nat ::
          (Covers(runs, j) || (open.Some? && open.value <= j < i)) <==> j < i && j !in v.Members())
  }

  lemma ScanCloses(v: Bitmap, runs: seq<Run>, start: u64, i: u64, n: nat)
    requires v.Valid() && Scanned(v, runs, Some(start), i)
    requires n == i || (n == i + 1 && i in v.Members())
    ensures Coalesced(runs + [(start, i)])
    ensures forall k :: 0 <= k < |runs + [(start, i)]| ==> (runs + [(start, i)])[k].1 <= i
    ensures forall j: nat :: Covers(runs + [(start, i)], j) <==> j < n && j !in v.Members()
  {
    forall j: nat
      ensures Covers(runs + [(start, i)], j) <==> j < n && j !in v.Members()
    {
      CoversPush(runs, (start, i), j);
    }
  }

  lemma ScanSteps(v: Bitmap, runs: seq<Run>, open: Option<u64>, i: u64)
    requires v.Valid() && Scanned(v, runs, open, i)
    ensures i in v.Members() && open.None? ==> Scanned(v, runs, open, i + 1)
    ensures i !in v.Members() && open.Some? ==> Scanned(v, runs, open, i + 1)
    ensures i !in v.Members() && open.None? ==> Scanned(v, runs, Some(i), i + 1)
  {
  }

  /** `runs` are the maximal runs of indices below `count` that are not present. */
  ghost predicate RunsOf(present: set<nat>, count: nat, runs: seq<Run>) {
    && Coalesced(runs)
    && (forall k :: 0 <= k < |runs| ==> runs[k].1 <= count)
    && (forall i: nat :: Covers(runs, i) <==> i < count && i !in present)
  }

  /** `missing_ranges`: the maximal runs of unset bits. */
  method MissingRanges(v: Bitmap) returns (runs: seq<Run>)
    requires v.Valid()
    ensures RunsOf(v.Members(), v.count, runs)
  {
    runs := [];
    var runStart: Option<u64> := None;
    for i := 0 to v.count
      invariant Scanned(v, runs, runStart, i)
    {
      var present := v.Has(i);
      ScanSteps(v, runs, runStart, i);
      match (present, runStart) {
        case (false, None) => runStart := Some(i);
        case (true, Some(start)) =>
          ScanCloses(v, runs, start, i, i + 1);
          runs := runs + [(start, i)];
          runStart := None;
        case _ =>
      }
    }
    if runStart.Some? {
      ScanCloses(v, runs, runStart.value, v.count, v.count);
      runs := runs + [(runStart.value, v.count)];
    }
  }

  // ----- what the runs add up to ---------------------------------------------

  datatype WorkItem = WorkItem(fileIndex: nat, chunkIndex: u64)

  /** The chunks of file `f` below `n` that are not present, in index order. */
  ghost function MissingItems(f: nat, present: set<nat>, n: u64): seq<WorkItem> {
    if n == 0 then []
    else if n - 1 in present then MissingItems(f, present, n - 1)
    else MissingItems(f, present, n - 1) + [WorkItem(f, n - 1)]
  }

  /** The bytes of those chunks. */
  ghost function MissingBytes(present: set<nat>, l: ChunkLayout, n: nat): nat
    requires l.Valid()
  {
    if n == 0 then 0
    else MissingBytes(present, l, n - 1) + (if n - 1 in present then 0 else ChunkWeight(l, n - 1))
  }

  /** Every missing index below `n` names a chunk of the layout. */
  ghost predicate FitsBelow(present: set<nat>, l: ChunkLayout, n: nat) {
    forall i: nat :: i < n && i !in present ==> i < l.count
  }

  /** The end of the `k`-th run, where the scan for the next one starts. */
  ghost function Edge(runs: seq<Run>, k: nat): u64
    requires k <= |runs|
  {
    if k == 0 then 0 else runs[k - 1].1
  }

  ghost function NextEdge(count: u64, runs: seq<Run>, k: nat): u64
    requires k <= |runs|
  {
    if k < |runs| then runs[k].0 else count
  }

  lemma {:induction false} SkipPresent(f: nat, present: set<nat>, l: ChunkLayout, a: u64, b: u64)
    requires l.Valid() && a <= b
    requires forall i: nat :: a <= i < b ==> i in present
    ensures MissingItems(f, present, b) == MissingItems(f, present, a)
    ensures MissingBytes(present, l, b) == MissingBytes(present, l, a)
    decreases b
  {
    if a < b {
      SkipPresent(f, present, l, a, b - 1);
    }
  }

  /** The state of a walk over the runs that has dealt with every chunk below `n`. */
  ghost predicate Walked(f: nat, present: set<nat>, l: ChunkLayout, n: u64, items: seq<WorkItem>, bytes: nat)
    requires l.Valid()
  {
    && FitsBelow(present, l, n)
    && items == MissingItems(f, present, n)
    && bytes == MissingBytes(present, l, n)
  }

  /** The gap before run `k` (or before the end of the map) adds nothing. */
  lemma WalkGap(f: nat, present: set<nat>, count: u64, l: ChunkLayout, runs: seq<Run>, k: nat,
                items: seq<WorkItem>, bytes: nat)
    requires l.Valid() && RunsOf(present, count, runs) && k <= |runs|
    requires Walked(f, present, l, Edge(runs, k), items, bytes)
    ensures Walked(f, present, l, NextEdge(count, runs, k), items, bytes)
  {
    var a, b := Edge(runs, k), NextEdge(count, runs, k);
    forall i: nat | a <= i < b
      ensures i in present
    {
      assert !Covers(runs, i);
    }
    SkipPresent(f, present, l, a, b);
  }

  /** One missing chunk either extends the walk or is outside the layout. */
  lemma WalkChunk(f: nat, present: set<nat>, count: u64, l: ChunkLayout, runs: seq<Run>, k: nat, i: u64,
                  items: seq<WorkItem>, bytes: nat)
    requires l.Valid() && RunsOf(present, count, runs) && k < |runs| && runs[k].0 <= i < runs[k].1
    requires Walked(f, present, l, i, items, bytes)
    ensures i < l.count ==> Walked(f, present, l, i + 1, items + [WorkItem(f, i)], bytes + l.Len(i))
    ensures i >= l.count ==> !FitsBelow(present, l, count)
  {
    assert Covers(runs, i);
  }

  /** The inner loop of `remaining_bytes`: one run of missing chunks. */
  method AddRun(l: ChunkLayout, run: Run, before: nat,
                ghost present: set<nat>, ghost count: u64, ghost runs: seq<Run>, ghost k: nat,
                ghost seen: seq<WorkItem>)
    returns (r: Result<nat, WireError>, ghost seen': seq<WorkItem>)
    requires l.Valid() && RunsOf(present, count, runs) && k < |runs| && run == runs[k]
    requires Walked(0, present, l, run.0, seen, before)
    ensures r.Ok? ==> Walked(0, present, l, run.1, seen', r.value)
    ensures r.Err? ==> !FitsBelow(present, l, count)
  {
    var total: nat := before;
    seen' := seen;
    for i := run.0 to run.1
      invariant Walked(0, present, l, i, seen', total)
    {
      WalkChunk(0, present, count, l, runs, k, i, seen', total);
      match l.Range(i) {
        case Err(e) => return Err(e), seen';
        case Ok((_, len)) =>
          total := total + len;
          seen' := seen' + [WorkItem(0, i)];
      }
    }
    return Ok(total), seen';
  }

  /** `remaining_bytes`: an error exactly when a missing index is outside the layout. */
  method RemainingBytes(v: Bitmap, l: ChunkLayout) returns (r: Result<nat, WireError>)
    requires v.Valid() && l.Valid()
    ensures r.Ok? <==> FitsBelow(v.Members(), l, v.count)
    ensures r.Ok? ==> r.value == MissingBytes(v.Members(), l, v.count)
  {
    var runs := MissingRanges(v);
    ghost var present := v.Members();
    r := Ok(0);
    ghost var seen := [];
    for k := 0 to |runs|
      invariant r.Ok? && Walked(0, present, l, Edge(runs, k), seen, r.value)
    {
      WalkGap(0, present, v.count, l, runs, k, seen, r.value);
      r, seen := AddRun(l, runs[k], r.value, present, v.count, runs, k, seen);
      if r.Err? { return; }
    }
    WalkGap(0, present, v.count, l, runs, |runs|, seen, r.value);
  }

  /** The inner loop of the work-queue construction: one run of missing chunks. */
  method EnqueueRun(f: nat, l: ChunkLayout, run: Run, items: seq<WorkItem>, bytes: nat,
                    ghost present: set<nat>, ghost runs: seq<Run>, ghost k: nat)
    returns (items': seq<WorkItem>, bytes': nat)
    requires l.Valid() && RunsOf(present, l.count, runs) && k < |runs| && run == runs[k]
    requires Walked(f, present, l, run.0, items, bytes)
    ensures Walked(f, present, l, run.1, items', bytes')
  {
    items', bytes' := items, bytes;
    for i := run.0 to run.1
      invariant Walked(f, present, l, i, items', bytes')
    {
      WalkChunk(f, present, l.count, l, runs, k, i, items', bytes');
      bytes' := bytes' + l.Range(i).value.1;
      items' := items' + [WorkItem(f, i)];
    }
  }

  /** The loops of the work-queue construction, for one accepted file. */
  method EnqueueFile(f: nat, v: Bitmap, l: ChunkLayout) returns (items: seq<WorkItem>, bytes: nat)
    requires v.Valid() && l.Valid() && v.count == l.count
    ensures items == MissingItems(f, v.Members(), l.count)
    ensures bytes == MissingBytes(v.Members(), l, l.count)
  {
    var runs := MissingRanges(v);
    ghost var present := v.Members();
    items, bytes := [], 0;
    for k := 0 to |runs|
      invariant Walked(f, present, l, Edge(runs, k), items, bytes)
    {
      WalkGap(f, present, l.count, l, runs, k, items, bytes);
      items, bytes := EnqueueRun(f, l, runs[k], items, bytes, present, runs, k);
    }
    WalkGap(f, present, l.count, l, runs, |runs|, items, bytes);
  }

  // ----- the whole queue -----------------------------------------------------

  /** One offered file, as the sender holds it. */
  datatype Offered = Offered(fileId: u64, layout: ChunkLayout)

  datatype FileProgress = FileProgress(fileId: u64, have: seq<byte>)

  /** The receiver's `ManifestAccept`. */
  datatype Accept = Accept(acceptedIds: seq<u64>, progress: seq<FileProgress>)

  /** The first progress entry for a file, if any. */
  function FindProgress(progress: seq<FileProgress>, id: u64): Option<seq<byte>> {
    if progress == [] then None
    else if progress[0].fileId == id then Some(progress[0].have)
    else FindProgress(progress[1..], id)
  }

  /** The answer is the first entry with this id, and there is none only if no entry has it. */
  lemma {:induction false} FindsFirst(progress: seq<FileProgress>, id: u64, k: nat)
    ensures FindProgress(progress, id) == None <==> forall j :: 0 <= j < |progress| ==> progress[j].fileId != id
    ensures k < |progress| && progress[k].fileId == id && (forall j :: 0 <= j < k ==> progress[j].fileId != id)
            ==> FindProgress(progress, id) == Some(progress[k].have)
  {
    if progress != [] {
      FindsFirst(progress[1..], id, if k > 0 then k - 1 else 0);
      assert forall j :: 0 < j < |progress| ==> progress[j] == progress[1..][j - 1];
      assert forall j :: 0 <= j < |progress[1..]| ==> progress[1..][j] == progress[j + 1];
    }
  }

  /** The bitmap the sender believes the receiver holds for an accepted file. */
  function Have(a: Accept, o: Offered): Result<Bitmap, WireError> {
    match FindProgress(a.progress, o.fileId)
    case None => Ok(NewBitmap(o.layout.count))
    case Some(bytes) => FromBytes(bytes, o.layout.count)
  }

  lemma HaveIsValid(a: Accept, o: Offered)
    requires Have(a, o).Ok?
    ensures Have(a, o).value.Valid() && Have(a, o).value.count == o.layout.count
  {
    NewIsEmpty(o.layout.count);
    match FindProgress(a.progress, o.fileId)
    case None =>
    case Some(bytes) => FromBytesAccepts(bytes, o.layout.count);
  }

  predicate LayoutsValid(files: seq<Offered>) {
    forall f :: 0 <= f < |files| ==> files[f].layout.Valid()
  }

  /** If file `o` is accepted, the bitmap sent for it parses. */
  predicate Parses(a: Accept, o: Offered) {
    o.fileId in a.acceptedIds ==> Have(a, o).Ok?
  }

  ghost predicate AllParse(files: seq<Offered>, a: Accept, n: nat)
    requires n <= |files|
  {
    forall f :: 0 <= f < n ==> Parses(a, files[f])
  }

  /** What the receiver already holds of a file, or `None` if it did not accept it. */
  ghost function Held(a: Accept, o: Offered): Option<set<nat>> {
    if o.fileId in a.acceptedIds && Have(a, o).Ok? then
      HaveIsValid(a, o);
      Some(Have(a, o).value.Members())
    else None
  }

  ghost function AllHeld(files: seq<Offered>, a: Accept): (held: seq<Option<set<nat>>>)
    ensures |held| == |files|
    ensures forall f :: 0 <= f < |files| ==> held[f] == Held(a, files[f])
  {
    seq(|files|, f requires 0 <= f < |files| => Held(a, files[f]))
  }

  /** Chunk `c` of a file still has to travel. */
  ghost predicate Wanted(held: Option<set<nat>>, l: ChunkLayout, c: nat) {
    held.Some? && c < l.count && c !in held.value
  }

  ghost function FileItems(held: Option<set<nat>>, l: ChunkLayout, f: nat): seq<WorkItem> {
    if held.Some? then MissingItems(f, held.value, l.count) else []
  }

  ghost function FileBytes(held: Option<set<nat>>, l: ChunkLayout): nat
    requires l.Valid()
  {
    if held.Some? then MissingBytes(held.value, l, l.count) else 0
  }

  ghost function ItemLists(files: seq<Offered>, held: seq<Option<set<nat>>>): (lists: seq<seq<WorkItem>>)
    requires |files| == |held|
    ensures |lists| == |files|
    ensures forall f :: 0 <= f < |files| ==> lists[f] == FileItems(held[f], files[f].layout, f)
  {
    seq(|files|, f requires 0 <= f < |files| => FileItems(held[f], files[f].layout, f))
  }

  /** The first `n` lists, end to end: files join the queue in manifest order. */
  ghost function Flatten(lists: seq<seq<WorkItem>>, n: nat): seq<WorkItem>
    requires n <= |lists|
  {
    if n == 0 then [] else Flatten(lists, n - 1) + lists[n - 1]
  }

  /** The work queue: what every accepted file lacks. */
  ghost function Queue(files: seq<Offered>, held: seq<Option<set<nat>>>): seq<WorkItem>
    requires |files| == |held|
  {
    Flatten(ItemLists(files, held), |files|)
  }

  ghost function ByteLists(files: seq<Offered>, held: seq<Option<set<nat>>>): (bytes: seq<nat>)
    requires |files| == |held| && LayoutsValid(files)
    ensures |bytes| == |files|
    ensures forall f :: 0 <= f < |files| ==> bytes[f] == FileBytes(held[f], files[f].layout)
  {
    seq(|files|, f requires 0 <= f < |files| => FileBytes(held[f], files[f].layout))
  }

  ghost function Sum(bytes: seq<nat>, n: nat): nat
    requires n <= |bytes|
  {
    if n == 0 then 0 else Sum(bytes, n - 1) + bytes[n - 1]
  }

  /** The sum of `remaining_bytes` over the accepted files. */
  ghost function QueueTotal(files: seq<Offered>, held: seq<Option<set<nat>>>): nat
    requires |files| == |held| && LayoutsValid(files)
  {
    Sum(ByteLists(files, held), |files|)
  }

  /** One turn of the file loop: skip the file, fail on its bitmap, or enqueue what it lacks. */
  method AppendFile(a: Accept, o: Offered, f: nat, queue: seq<WorkItem>, bytes: nat, ghost held: Option<set<nat>>)
    returns (r: Result<(seq<WorkItem>, nat), WireError>)
    requires o.layout.Valid() && held == Held(a, o)
    ensures r.Ok? <==> Parses(a, o)
    ensures r.Ok? ==> r.value == (queue + FileItems(held, o.layout, f), bytes + FileBytes(held, o.layout))
  {
    if o.fileId !in a.acceptedIds {
      assert queue + [] == queue;
      return Ok((queue, bytes));
    }
    var have := Have(a, o);
    if have.Err? { return Err(have.error); }
    HaveIsValid(a, o);
    var items, n := EnqueueFile(f, have.value, o.layout);
    return Ok((queue + items, bytes + n));
  }

  /** The sender's work-queue construction: it fails exactly when an accepted file's bitmap
      does not parse, and otherwise lists and totals what is missing. */
  method BuildQueue(files: seq<Offered>, a: Accept) returns (r: Result<(seq<WorkItem>, nat), WireError>)
    requires LayoutsValid(files)
    ensures r.Ok? <==> AllParse(files, a, |files|)
    ensures
      var held := AllHeld(files, a);
      r.Ok? ==> r.value == (Queue(files, held), QueueTotal(files, held))
  {
    hide Parses, Held, FileItems, FileBytes, AllHeld, ItemLists, ByteLists;
    ghost var held := AllHeld(files, a);
    ghost var lists, bytes := ItemLists(files, held), ByteLists(files, held);
    var queue: seq<WorkItem>, bytesToSend: nat := [], 0;
    for f := 0 to |files|
      invariant AllParse(files, a, f)
      invariant Built(lists, bytes, f, queue, bytesToSend)
    {
      var next := AppendFile(a, files[f], f, queue, bytesToSend, held[f]);
      if next.Err? { return next; }
      assert next.value == (queue + lists[f], bytesToSend + bytes[f]);
      queue, bytesToSend := next.value.0, next.value.1;
    }
    return Ok((queue, bytesToSend));
  }

  ghost predicate Built(lists: seq<seq<WorkItem>>, bytes: seq<nat>, n: nat, queue: seq<WorkItem>, total: nat)
    requires n <= |lists| == |bytes|
  {
    queue == Flatten(lists, n) && total == Sum(bytes, n)
  }

  /** Dispatch order: by file, then by chunk. */
  predicate Before(x: WorkItem, y: WorkItem) {
    x.fileIndex < y.fileIndex || (x.fileIndex == y.fileIndex && x.chunkIndex < y.chunkIndex)
  }

  ghost predicate Ordered(q: seq<WorkItem>) {
    forall i, j :: 0 <= i < j < |q| ==> Before(q[i], q[j])
  }

  lemma {:induction false} MissingItemsExact(f: nat, present: set<nat>, n: u64, w: WorkItem)
    ensures w in MissingItems(f, present, n) <==>
            w.fileIndex == f && w.chunkIndex < n && w.chunkIndex !in present
  {
    if n > 0 { MissingItemsExact(f, present, n - 1, w); }
  }

  lemma {:induction false} MissingItemsOrdered(f: nat, present: set<nat>, n: u64)
    ensures Ordered(MissingItems(f, present, n))
  {
    if n > 0 {
      MissingItemsOrdered(f, present, n - 1);
      var rest := MissingItems(f, present, n - 1);
      forall x | x in rest
        ensures Before(x, WorkItem(f, n - 1))
      {
        MissingItemsExact(f, present, n - 1, x);
      }
      OrderedConcat(rest, [WorkItem(f, n - 1)]);
    }
  }

  lemma OrderedConcat(p: seq<WorkItem>, q: seq<WorkItem>)
    requires Ordered(p) && Ordered(q)
    requires forall x, y :: x in p && y in q ==> Before(x, y)
    ensures Ordered(p + q)
  {
  }

  lemma FileItemsExact(held: Option<set<nat>>, l: ChunkLayout, f: nat, w: WorkItem)
    ensures w in FileItems(held, l, f) <==> w.fileIndex == f && Wanted(held, l, w.chunkIndex)
  {
    if held.Some? { MissingItemsExact(f, held.value, l.count, w); }
  }

  lemma {:induction false} FlattenExact(lists: seq<seq<WorkItem>>, n: nat, w: WorkItem)
    requires n <= |lists|
    ensures w in Flatten(lists, n) <==> exists f :: 0 <= f < n && w in lists[f]
  {
    if n > 0 { FlattenExact(lists, n - 1, w); }
  }

  lemma {:induction false} FlattenOrdered(lists: seq<seq<WorkItem>>, n: nat)
    requires n <= |lists|
    requires forall f :: 0 <= f < |lists| ==> Ordered(lists[f])
    requires forall f, w :: 0 <= f < |lists| && w in lists[f] ==> w.fileIndex == f
    ensures Ordered(Flatten(lists, n))
  {
    if n > 0 {
      FlattenOrdered(lists, n - 1);
      forall x, y | x in Flatten(lists, n - 1) && y in lists[n - 1]
        ensures Before(x, y)
      {
        FlattenExact(lists, n - 1, x);
      }
      OrderedConcat(Flatten(lists, n - 1), lists[n - 1]);
    }
  }

  /** The queue lists exactly the wanted chunks, in strictly increasing order, so none twice. */
  lemma QueueExact(files: seq<Offered>, held: seq<Option<set<nat>>>)
    requires |files| == |held|
    ensures Ordered(Queue(files, held))
    ensures forall w: WorkItem :: w in Queue(files, held) <==>
              w.fileIndex < |files| && Wanted(held[w.fileIndex], files[w.fileIndex].layout, w.chunkIndex)
  {
    var lists := ItemLists(files, held);
    forall f, w: WorkItem | 0 <= f < |lists|
      ensures w in lists[f] <==> w.fileIndex == f && Wanted(held[f], files[f].layout, w.chunkIndex)
    {
      FileItemsExact(held[f], files[f].layout, f, w);
    }
    forall f | 0 <= f < |lists|
      ensures Ordered(lists[f])
    {
      if held[f].Some? { MissingItemsOrdered(f, held[f].value, files[f].layout.count); }
    }
    FlattenOrdered(lists, |files|);
    forall w: WorkItem
      ensures w in Queue(files, held) <==>
              w.fileIndex < |files| && Wanted(held[w.fileIndex], files[w.fileIndex].layout, w.chunkIndex)
    {
      FlattenExact(lists, |files|, w);
    }
  }

  // ----- the queue of an honest answer -------------------------------------------------

  /** The receiver's answer: it accepts the files at which `bitmaps` has one, and for each of them sends
      the bytes of that file's bitmap under the file's id, in any order. */
  ghost predicate Answers(files: seq<Offered>, bitmaps: seq<Option<Bitmap>>, a: Accept) {
    && |bitmaps| == |files|
    && (forall f, g :: 0 <= f < g < |files| ==> files[f].fileId != files[g].fileId)
    && (forall f :: 0 <= f < |files| ==> (bitmaps[f].Some? <==> files[f].fileId in a.acceptedIds))
    && (forall f :: 0 <= f < |files| && bitmaps[f].Some? ==>
          && bitmaps[f].value.Valid() && bitmaps[f].value.count == files[f].layout.count
          && FileProgress(files[f].fileId, bitmaps[f].value.bits) in a.progress)
    && (forall j, k :: 0 <= j < k < |a.progress| ==> a.progress[j].fileId != a.progress[k].fileId)
  }

  /** What the sender makes of such an answer is the receiver's own bitmap, file by file. */
  lemma AnswerIsUnderstood(files: seq<Offered>, bitmaps: seq<Option<Bitmap>>, a: Accept, f: nat)
    requires Answers(files, bitmaps, a) && f < |files|
    ensures Parses(a, files[f])
    ensures Held(a, files[f]) == if bitmaps[f].Some? then Some(bitmaps[f].value.Members()) else None
  {
    hide Bitmap.Members, Bitmap.PaddingClear, FromBytes;
    if bitmaps[f].Some? {
      var v := bitmaps[f].value;
      var k :| 0 <= k < |a.progress| && a.progress[k] == FileProgress(files[f].fileId, v.bits);
      FindsFirst(a.progress, files[f].fileId, k);
      FromBytesInvertsAsBytes(v);
    }
  }

  /** A file accepted without an entry is sent whole. */
  lemma NoEntryMeansEverything(a: Accept, o: Offered)
    requires o.fileId in a.acceptedIds && forall j :: 0 <= j < |a.progress| ==> a.progress[j].fileId != o.fileId
    ensures Parses(a, o) && Held(a, o) == Some({})
  {
    FindsFirst(a.progress, o.fileId, 0);
    NewIsEmpty(o.layout.count);
  }

  /** So from the receiver's answer the sender's queue is built without error, and lists exactly the chunks
      of the accepted files that are missing from their own bitmaps. */
  lemma AnswerQueuesMissing(files: seq<Offered>, bitmaps: seq<Option<Bitmap>>, a: Accept, x: WorkItem)
    requires Answers(files, bitmaps, a)
    ensures AllParse(files, a, |files|)
    ensures x in Queue(files, AllHeld(files, a)) <==>
            && x.fileIndex < |files| && bitmaps[x.fileIndex].Some? && x.chunkIndex < files[x.fileIndex].layout.count
            && x.chunkIndex !in bitmaps[x.fileIndex].value.Members()
  {
    hide Bitmap.Members, Held, Parses, Answers, Queue, Ordered;
    AnswersHas(files, bitmaps, a);
    forall f | 0 <= f < |files|
      ensures Parses(a, files[f])
      ensures Held(a, files[f]) == if bitmaps[f].Some? then Some(bitmaps[f].value.Members()) else None
    {
      AnswerIsUnderstood(files, bitmaps, a, f);
    }
    QueueExact(files, AllHeld(files, a));
  }

  lemma AnswersHas(files: seq<Offered>, bitmaps: seq<Option<Bitmap>>, a: Accept)
    requires Answers(files, bitmaps, a)
    ensures |bitmaps| == |files|
    ensures forall f :: 0 <= f < |files| && bitmaps[f].Some? ==> bitmaps[f].value.Sized()
  {
  }

  // ----- the sender's byte counter --------------------------------------------

  /** What one completed item adds to `sent`. */
  ghost function Weight(files: seq<Offered>, w: WorkItem): nat {
    if w.fileIndex < |files| then ChunkWeight(files[w.fileIndex].layout, w.chunkIndex) else 0
  }

  ghost function ChunkWeight(l: ChunkLayout, i: nat): nat {
    if l.Valid() && i < l.count then l.Len(i) else 0
  }

  /** The bytes a run over `q` adds to `sent`. */
  ghost function ItemBytes(files: seq<Offered>, q: seq<WorkItem>): nat {
    if q == [] then 0 else ItemBytes(files, q[..|q| - 1]) + Weight(files, q[|q| - 1])
  }

  lemma ItemBytesPush(files: seq<Offered>, q: seq<WorkItem>, w: WorkItem)
    ensures ItemBytes(files, q + [w]) == ItemBytes(files, q) + Weight(files, w)
  {
    assert (q + [w])[..|q|] == q;
  }

  lemma {:induction false} ItemBytesConcat(files: seq<Offered>, p: seq<WorkItem>, q: seq<WorkItem>)
    ensures ItemBytes(files, p + q) == ItemBytes(files, p) + ItemBytes(files, q)
    decreases |q|
  {
    if q == [] {
      assert p + q == p;
    } else {
      var q', w := q[..|q| - 1], q[|q| - 1];
      ItemBytesConcat(files, p, q');
      ItemBytesPush(files, p + q', w);
      assert p + q == (p + q') + [w];
    }
  }

  lemma {:induction false} MissingItemsBytes(files: seq<Offered>, f: nat, present: set<nat>, n: u64)
    requires f < |files| && files[f].layout.Valid() && n <= files[f].layout.count
    ensures ItemBytes(files, MissingItems(f, present, n)) == MissingBytes(present, files[f].layout, n)
  {
    if n > 0 {
      MissingItemsBytes(files, f, present, n - 1);
      ItemBytesPush(files, MissingItems(f, present, n - 1), WorkItem(f, n - 1));
    }
  }

  lemma FileItemsWeigh(files: seq<Offered>, held: Option<set<nat>>, f: nat)
    requires f < |files| && files[f].layout.Valid()
    ensures ItemBytes(files, FileItems(held, files[f].layout, f)) == FileBytes(held, files[f].layout)
  {
    if held.Some? { MissingItemsBytes(files, f, held.value, files[f].layout.count); }
  }

  lemma {:induction false} FlattenWeighs(files: seq<Offered>, lists: seq<seq<WorkItem>>, bytes: seq<nat>, n: nat)
    requires n <= |lists| == |bytes|
    requires forall f :: 0 <= f < |lists| ==> ItemBytes(files, lists[f]) == bytes[f]
    ensures ItemBytes(files, Flatten(lists, n)) == Sum(bytes, n)
  {
    if n > 0 {
      FlattenWeighs(files, lists, bytes, n - 1);
      ItemBytesConcat(files, Flatten(lists, n - 1), lists[n - 1]);
    }
  }

  /** The queue's items weigh exactly `bytes_to_send`, so that is where `sent` ends. */
  lemma QueueWeighsTotal(files: seq<Offered>, held: seq<Option<set<nat>>>)
    requires |files| == |held| && LayoutsValid(files)
    ensures ItemBytes(files, Queue(files, held)) == QueueTotal(files, held)
  {
    var lists, bytes := ItemLists(files, held), ByteLists(files, held);
    forall f | 0 <= f < |files|
      ensures ItemBytes(files, lists[f]) == bytes[f]
    {
      FileItemsWeigh(files, held[f], f);
    }
    FlattenWeighs(files, lists, bytes, |files|);
  }
}
