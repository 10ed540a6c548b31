// Hash commitments (aetherlink-proto chunk.rs, aetherlink-core io.rs and recv.rs): the
// chunk hashes a sender computes, how the offer carries them, and the root that binds them.

module Hashes {
  import opened Base
  import opened Layout
  import opened ReadCursors
  import opened Record
  import opened Receiver

  /** `aetherlink.file-root.v1` in ASCII. */
  const ROOT_DOMAIN: seq<byte> := [97, 101, 116, 104, 101, 114, 108, 105, 110, 107, 46, 102, 105, 108, 101, 45,
                                   114, 111, 111, 116, 46, 118, 49]

  // ----- lists of hashes as bytes ----------------------------------------------------------

  predicate AllDigests(hs: seq<Hash>) {
    forall i :: 0 <= i < |hs| ==> |hs[i]| == HASH_LEN
  }

  function Concat(hs: seq<Hash>): (b: seq<byte>)
    ensures AllDigests(hs) ==> |b| == HASH_LEN * |hs|
  {
    if hs == [] then [] else hs[0] + Concat(hs[1..])
  }

  /** `chunks_exact(32)`. */
  function Pieces(bytes: seq<byte>): (hs: seq<Hash>)
    ensures AllDigests(hs) && |hs| == |bytes| / HASH_LEN
    decreases |bytes|
  {
    if |bytes| < HASH_LEN then [] else [bytes[..HASH_LEN]] + Pieces(bytes[HASH_LEN..])
  }

  /** `split_hashes`: refuses any length but 32 bytes per chunk. */
  function SplitHashes(bytes: seq<byte>, count: u64): (r: Option<seq<Hash>>) {
    if |bytes| != count * HASH_LEN then None else Some(Pieces(bytes))
  }

  lemma {:induction false} PiecesInvertConcat(hs: seq<Hash>)
    requires AllDigests(hs)
    ensures Pieces(Concat(hs)) == hs
  {
    if hs != [] {
      PiecesInvertConcat(hs[1..]);
      var b := Concat(hs);
      assert b[..HASH_LEN] == hs[0] && b[HASH_LEN..] == Concat(hs[1..]);
      assert [hs[0]] + hs[1..] == hs;
    }
  }

  lemma {:induction false} ConcatInvertsPieces(bytes: seq<byte>)
    requires |bytes| % HASH_LEN == 0
    ensures Concat(Pieces(bytes)) == bytes
    decreases |bytes|
  {
    if bytes != [] {
      ConcatInvertsPieces(bytes[HASH_LEN..]);
      assert bytes[..HASH_LEN] + bytes[HASH_LEN..] == bytes;
    }
  }

  /** Splitting accepts exactly the concatenations of `count` digests, and undoes them. */
  lemma SplitHashesExact(bytes: seq<byte>, count: u64, hs: seq<Hash>)
    ensures SplitHashes(bytes, count) == Some(hs) <==> AllDigests(hs) && |hs| == count && Concat(hs) == bytes
  {
    hide Concat, Pieces;
    if SplitHashes(bytes, count) == Some(hs) {
      ConcatInvertsPieces(bytes);
    }
    if AllDigests(hs) && |hs| == count && Concat(hs) == bytes {
      PiecesInvertConcat(hs);
    }
  }

  // ----- the root ------------------------------------------------------------------------------

  function RootInput(hs: seq<Hash>): seq<byte> {
    ROOT_DOMAIN + ToLE(|hs|, 8) + Concat(hs)
  }

  /** `root_from_chunk_hashes`. */
  function Root(H: Hasher, hs: seq<Hash>): Hash { H(RootInput(hs)) }

  /** Where everything stands in what is hashed: the domain, the count, and hash `i` at byte 31 + 32 `i`. */
  lemma RootLayout(hs: seq<Hash>, i: nat)
    requires AllDigests(hs) && |hs| <= U64_MAX
    ensures
      var b := RootInput(hs);
      && |b| == 31 + 32 * |hs| && b[..23] == ROOT_DOMAIN && StandsAt(b, 23, 8, |hs|)
      && (i < |hs| ==> b[31 + 32 * i..63 + 32 * i] == hs[i])
  {
    hide ToLE, StandsAt, Concat;
    var b := RootInput(hs);
    Pow256Values();
    assert b[23..31] == ToLE(|hs|, 8);
    WindowStandsAt(b, 23, 8, |hs|);
    if i < |hs| {
      ConcatAt(hs, i);
      assert b[31..] == Concat(hs);
      assert b[31 + 32 * i..63 + 32 * i] == b[31..][32 * i..32 * i + 32];
    }
  }

  lemma {:induction false} ConcatAt(hs: seq<Hash>, i: nat)
    requires AllDigests(hs) && i < |hs|
    ensures Concat(hs)[32 * i..32 * i + 32] == hs[i]
  {
    if i > 0 {
      ConcatAt(hs[1..], i - 1);
      WindowBehind(hs[0], Concat(hs[1..]), 32 * (i - 1));
      assert 32 + 32 * (i - 1) == 32 * i;
    }
  }

  lemma WindowBehind(h: seq<byte>, tail: seq<byte>, o: nat)
    requires |h| == 32 && o + 32 <= |tail|
    ensures (h + tail)[32 + o..64 + o] == tail[o..o + 32]
  {
  }

  /** The loop that feeds the hasher: domain, count, then each hash in index order. */
  method ComputeRoot(H: Hasher, hs: seq<Hash>) returns (root: Hash)
    ensures root == Root(H, hs)
  {
    var fed := ROOT_DOMAIN + ToLE(|hs|, 8);
    ghost var prefix := fed;
    for i := 0 to |hs|
      invariant fed + Concat(hs[i..]) == prefix + Concat(hs)
    {
      assert hs[i..][0] == hs[i] && hs[i..][1..] == hs[i + 1..];
      assert fed + (hs[i] + Concat(hs[i + 1..])) == (fed + hs[i]) + Concat(hs[i + 1..]);
      fed := fed + hs[i];
    }
    assert fed + [] == fed;
    return H(fed);
  }

  lemma SplitThree(d: seq<byte>, n: seq<byte>, a: seq<byte>, n': seq<byte>, a': seq<byte>)
    requires d + n + a == d + n' + a' && |n| == |n'|
    ensures a == a'
  {
    var k := |d| + |n|;
    assert (d + n + a)[k..] == a && (d + n' + a')[k..] == a';
  }

  /** The root commits to the whole list: equal roots mean equal chunk hashes, in number and order. */
  lemma RootBinds(H: Hasher, a: seq<Hash>, b: seq<Hash>)
    requires AllDigests(a) && AllDigests(b) && Root(H, a) == Root(H, b) && Separates(H, RootInput(a), RootInput(b))
    ensures a == b
  {
    hide ToLE, Concat, Pieces;
    SplitThree(ROOT_DOMAIN, ToLE(|a|, 8), Concat(a), ToLE(|b|, 8), Concat(b));
    PiecesInvertConcat(a);
    PiecesInvertConcat(b);
  }

  // ----- the receiver's view of an offer -----------------------------------------------------------

  datatype OfferEntry = OfferEntry(sizeBytes: u64, rootHash: Hash, chunkHashes: seq<byte>)

  datatype Commitment = Commitment(layout: ChunkLayout, hashes: seq<Hash>, key: StateKey)

  /** The checks that turn an offered entry into a commitment: layout, hash list, and the root that
      has to be the root of that list. */
  function CommitmentOf(H: Hasher, entry: OfferEntry, chunkSize: u32): Option<Commitment> {
    var layout := NewLayout(entry.sizeBytes, chunkSize);
    if layout.Err? then None
    else
      var hashes := SplitHashes(entry.chunkHashes, layout.value.count);
      if hashes.None? then None
      else
        var root := Root(H, hashes.value);
        if entry.rootHash != root then None
        else Some(Commitment(layout.value, hashes.value, StateKey(root, entry.sizeBytes, chunkSize)))
  }

  /** Exactly which entries are accepted, and what they fix: a chunk size `new` takes, 32 bytes for each
      chunk, and a root that is the root of those hashes. */
  lemma CommitsExactly(H: Hasher, entry: OfferEntry, chunkSize: u32, c: Commitment)
    ensures CommitmentOf(H, entry, chunkSize) == Some(c) <==>
            && NewLayout(entry.sizeBytes, chunkSize) == Ok(c.layout)
            && AllDigests(c.hashes) && |c.hashes| == c.layout.count && Concat(c.hashes) == entry.chunkHashes
            && entry.rootHash == H(RootInput(c.hashes))
            && c.key == StateKey(entry.rootHash, entry.sizeBytes, chunkSize)
  {
    hide NewLayout, Concat, Pieces;
    var layout := NewLayout(entry.sizeBytes, chunkSize);
    if layout.Ok? {
      SplitHashesExact(entry.chunkHashes, layout.value.count, c.hashes);
      var hashes := SplitHashes(entry.chunkHashes, layout.value.count);
      if hashes.Some? { SplitHashesExact(entry.chunkHashes, layout.value.count, hashes.value); }
    }
  }

  /** What an accepted entry fixes is a specification for the crash-safe receiver. */
  lemma CommitmentIsSpec(H: Hasher, entry: OfferEntry, chunkSize: u32, threshold: nat)
    requires Digests(H) && CommitmentOf(H, entry, chunkSize).Some?
    ensures
      var c := CommitmentOf(H, entry, chunkSize).value;
      var spec := Spec(H, c.layout, c.hashes, c.key, threshold);
      spec.Valid()
  {
    var c := CommitmentOf(H, entry, chunkSize).value;
    SplitHashesExact(entry.chunkHashes, c.layout.count, c.hashes);
  }

  /** Two sessions whose keys agree have the same layout and the same hash for every chunk: the
      `StateKey` alone ties a record to the content it describes. */
  lemma SameKeySameCommitment(H: Hasher, e1: OfferEntry, e2: OfferEntry, c1: u32, c2: u32)
    requires CommitmentOf(H, e1, c1).Some? && CommitmentOf(H, e2, c2).Some?
    requires Separates(H, RootInput(CommitmentOf(H, e1, c1).value.hashes),
      RootInput(CommitmentOf(H, e2, c2).value.hashes))
    requires CommitmentOf(H, e1, c1).value.key == CommitmentOf(H, e2, c2).value.key
    ensures CommitmentOf(H, e1, c1) == CommitmentOf(H, e2, c2)
  {
    hide Root, Pieces;
    var a, b := CommitmentOf(H, e1, c1).value, CommitmentOf(H, e2, c2).value;
    SplitHashesExact(e1.chunkHashes, a.layout.count, a.hashes);
    SplitHashesExact(e2.chunkHashes, b.layout.count, b.hashes);
    RootBinds(H, a.hashes, b.hashes);
  }

  /** What the crash-safety theorems ask of a hash can be met: for any one-chunk file there is a
      32-byte digest under which nothing at all collides with it. */
  lemma NoCollisionIsPossible(l: ChunkLayout, content: seq<byte>, threshold: nat) returns (spec: Spec)
    requires l.Valid() && l.count == 1 && |content| == l.fileSize
    ensures spec.Valid() && spec.layout == l && spec.threshold == threshold && spec.Holds(content, 0)
    ensures forall a, b :: spec.Apart(0, a, b)
  {
    var one, zero := seq(HASH_LEN, _ => 1 as byte), seq(HASH_LEN, _ => 0 as byte);
    assert one[0] != zero[0];
    var H: Hasher := s => if s == content then one else zero;
    spec := Spec(H, l, [one], StateKey(one, l.fileSize, l.chunkSize), threshold);
    LenExact(l, 0);
    assert l.Slice(content, 0) == content;
  }

  // ----- hashes that arrive out of order ---------------------------------------------------------------

  type Slots = seq<Option<Hash>>

  function FilledCount(slots: Slots): (n: nat)
    ensures n <= |slots|
  {
    if slots == [] then 0 else (if slots[0].Some? then 1 else 0) + FilledCount(slots[1..])
  }

  lemma {:induction false} FilledUpdate(slots: Slots, i: nat, h: Hash)
    requires i < |slots| && slots[i].None?
    ensures FilledCount(slots[i := Some(h)]) == FilledCount(slots) + 1
  {
    if i == 0 {
      assert slots[i := Some(h)][1..] == slots[1..];
    } else {
      FilledUpdate(slots[1..], i - 1, h);
      assert slots[i := Some(h)][1..] == slots[1..][i - 1 := Some(h)];
    }
  }

  lemma {:induction false} FullIff(slots: Slots)
    ensures FilledCount(slots) == |slots| <==> forall i :: 0 <= i < |slots| ==> slots[i].Some?
  {
    if slots != [] {
      FullIff(slots[1..]);
      assert forall i :: 0 < i < |slots| ==> slots[i] == slots[1..][i - 1];
      forall i | 0 <= i < |slots[1..]| ensures slots[1..][i] == slots[i + 1] { }
    }
  }

  /** `ChunkHashSet`. */
  class ChunkHashSet {
    var hashes: Slots
    var filled: u64

    ghost predicate Valid()
      reads this
    {
      |hashes| <= U64_MAX && filled == FilledCount(hashes)
    }

    constructor (count: u64)
      ensures Valid() && |hashes| == count && forall i :: 0 <= i < count ==> hashes[i] == None
    {
      hashes := seq(count, _ => None);
      filled := 0;
      new;
      NoneFilled(hashes);
    }

    /** A repeated hash is a no-op, a conflicting one an error, a new one fills its slot. */
    method Insert(index: u64, hash: Hash) returns (r: Result<(), WireError>)
      requires Valid()
      modifies this
      ensures Valid() && |hashes| == old(|hashes|)
      ensures r.Ok? <==> index < |hashes| && (old(hashes)[index] == None || old(hashes)[index] == Some(hash))
      ensures r.Err? ==> r.error == (if index < |hashes| then ChunkHashConflict(index)
        else ChunkOutOfRange(index, |hashes|))
      ensures hashes == if r.Ok? then old(hashes)[index := Some(hash)] else old(hashes)
    {
      var count := |hashes|;
      if index >= count { return Err(ChunkOutOfRange(index, count)); }
      match hashes[index] {
        case Some(existing) =>
          if existing == hash { return Ok(()); }
          return Err(ChunkHashConflict(index));
        case None =>
          FilledUpdate(hashes, index, hash);
          hashes := hashes[index := Some(hash)];
          filled := filled + 1;
          return Ok(());
      }
    }

    predicate IsComplete()
      reads this
    {
      filled == |hashes|
    }

    /** The root of the slots in index order, or nothing while any is empty. */
    method RootOf(H: Hasher) returns (root: Option<Hash>)
      requires Valid()
      ensures root.Some? <==> forall i :: 0 <= i < |hashes| ==> hashes[i].Some?
      ensures forall hs :: hashes == Somes(hs) ==> root == Some(Root(H, hs))
    {
      FullIff(hashes);
      if !IsComplete() {
        return None;
      }
      var ordered := seq(|hashes|, i requires 0 <= i < |hashes| && hashes[i].Some? reads this => hashes[i].value);
      var digest := ComputeRoot(H, ordered);
      forall hs | hashes == Somes(hs)
        ensures hs == ordered
      {
        assert forall i :: 0 <= i < |hs| ==> hashes[i] == Some(hs[i]);
      }
      return Some(digest);
    }
  }

  lemma {:induction false} NoneFilled(slots: Slots)
    requires forall i :: 0 <= i < |slots| ==> slots[i] == None
    ensures FilledCount(slots) == 0
  {
    if slots != [] { NoneFilled(slots[1..]); }
  }

  function Somes(hs: seq<Hash>): (s: Slots)
    ensures |s| == |hs| && forall i :: 0 <= i < |hs| ==> s[i] == Some(hs[i])
  {
    seq(|hs|, i requires 0 <= i < |hs| => Some(hs[i]))
  }

  /** The slots after chunks of a file with hashes `hs` have arrived in some order, repeats allowed. */
  function Arrived(hs: seq<Hash>, order: seq<nat>): (s: Slots)
    requires forall k :: 0 <= k < |order| ==> order[k] < |hs|
    ensures |s| == |hs|
  {
    if order == [] then seq(|hs|, _ => None)
    else
      var i := order[|order| - 1];
      Arrived(hs, order[..|order| - 1])[i := Some(hs[i])]
  }

  /** Whatever the order and however often chunks repeat, a slot is filled exactly if its chunk has
      arrived, and once all have the slots are the list itself. */
  lemma {:induction false} ArrivalOrderIrrelevant(hs: seq<Hash>, order: seq<nat>, i: nat)
    requires i < |hs| && forall k :: 0 <= k < |order| ==> order[k] < |hs|
    ensures Arrived(hs, order)[i] == if i in order then Some(hs[i]) else None
    decreases |order|
  {
    if order != [] {
      var front, last := order[..|order| - 1], order[|order| - 1];
      assert order == front + [last];
      ArrivalOrderIrrelevant(hs, front, i);
    }
  }

  /** Chunk hashes of one file inserted in any order, repeats included, into a new set: no insertion
      fails, and the set ends with exactly the slots of the chunks that arrived. */
  method InsertAll(hs: seq<Hash>, order: seq<nat>) returns (slots: ChunkHashSet)
    requires |hs| <= U64_MAX && forall k :: 0 <= k < |order| ==> order[k] < |hs|
    ensures fresh(slots) && slots.Valid() && slots.hashes == Arrived(hs, order)
  {
    slots := new ChunkHashSet(|hs|);
    assert order[..0] == [];
    for n := 0 to |order|
      invariant fresh(slots) && slots.Valid() && slots.hashes == Arrived(hs, order[..n])
    {
      var i := order[n];
      ArrivalOrderIrrelevant(hs, order[..n], i);
      var r := slots.Insert(i, hs[i]);
      assert r.Ok?;
      assert order[..n + 1][..n] == order[..n];
    }
    assert order[..|order|] == order;
  }

  lemma AllArrivedIsTheList(hs: seq<Hash>, order: seq<nat>)
    requires forall k :: 0 <= k < |order| ==> order[k] < |hs|
    requires forall i :: 0 <= i < |hs| ==> i in order
    ensures Arrived(hs, order) == Somes(hs)
  {
    forall i | 0 <= i < |hs|
      ensures Arrived(hs, order)[i] == Some(hs[i])
    {
      ArrivalOrderIrrelevant(hs, order, i);
    }
  }

  // ----- the hash pass -------------------------------------------------------------------------------------

  const HASH_PASS_RELEASE_THRESHOLD: u64 := 128 * 1024 * 1024

  /** What the pass does, in order: it reads a chunk, or it releases a range. */
  datatype Act = Read(index: nat) | Release(range: (u64, u64))

  /** The releases among the acts. */
  function Released(log: seq<Act>): seq<(u64, u64)> {
    if log == [] then []
    else Released(log[..|log| - 1]) + (if log[|log| - 1].Release? then [log[|log| - 1].range] else [])
  }

  /** No release reaches a chunk that is read later. */
  ghost predicate ReleasesBehind(l: ChunkLayout, log: seq<Act>) {
    forall p, q :: 0 <= p < q < |log| && log[p].Release? && log[q].Read? ==> log[p].range.1 <= l.Start(log[q].index)
  }

  /** The pass has read the chunks below `n`, in order, and released what `ranges` says, up to `end`. */
  ghost predicate Passed(l: ChunkLayout, log: seq<Act>, n: nat, ranges: seq<(u64, u64)>, end: nat)
    requires l.Valid()
  {
    && ReleasesBehind(l, log) && Released(log) == ranges && Ledger(ranges, end, l.chunkSize)
    && end <= Min(l.Start(n), l.fileSize) && (end < l.fileSize ==> end % l.chunkSize == 0)
    && (forall p :: 0 <= p < |log| && log[p].Release? ==> log[p].range.1 <= end)
    && (forall i :: 0 <= i < n ==> Read(i) in log)
  }

  lemma PassReads(l: ChunkLayout, log: seq<Act>, n: nat, ranges: seq<(u64, u64)>, end: nat)
    requires l.Valid() && n < l.count && Passed(l, log, n, ranges, end)
    ensures Passed(l, log + [Read(n)], n + 1, ranges, end)
  {
    hide Ledger, ReleasesBehind, ChunkLayout.Start, ChunkLayout.Len;
    EndOfChunk(l, n);
    var log' := log + [Read(n)];
    assert log'[..|log|] == log && log'[|log|] == Read(n);
    assert ranges + [] == ranges;
    ReadIsAhead(l, log, n, end);
    forall i | 0 <= i < n + 1
      ensures Read(i) in log'
    {
      if i < n { assert Read(i) in log; }
    }
  }

  lemma ReadIsAhead(l: ChunkLayout, log: seq<Act>, n: nat, end: nat)
    requires ReleasesBehind(l, log) && end <= l.Start(n)
    requires forall p :: 0 <= p < |log| && log[p].Release? ==> log[p].range.1 <= end
    ensures ReleasesBehind(l, log + [Read(n)])
  {
    hide ChunkLayout.Start;
  }

  lemma PassReleases(l: ChunkLayout, log: seq<Act>, n: nat, ranges: seq<(u64, u64)>, from: u64, end: u64)
    requires l.Valid() && n < l.count && Passed(l, log, n + 1, ranges, from) && from < end == l.Start(n) + l.Len(n)
    ensures Passed(l, log + [Release((from, end))], n + 1, ranges + [(from, end)], end)
  {
    hide Ledger;
    EndOfChunk(l, n);
    LedgerGrows(ranges, from, l.chunkSize, (from, end));
    var log' := log + [Release((from, end))];
    assert log'[..|log|] == log && log'[|log|] == Release((from, end));
  }

  /** `SourceFile::chunk_hashes`: every chunk's hash in order. Above the threshold it releases behind
      itself: consecutive ranges from 0, none of them reaching a chunk it has still to read, with less than a
      batch left at the end. */
  method ChunkHashes(H: Hasher, l: ChunkLayout, content: seq<byte>, release: bool)
    returns (out: seq<Hash>, log: seq<Act>, releasedTo: u64)
    requires l.Valid() && |content| == l.fileSize
    ensures |out| == l.count && forall i :: 0 <= i < l.count ==> out[i] == H(l.Slice(content, i))
    ensures ReleasesBehind(l, log) && forall i :: 0 <= i < l.count ==> Read(i) in log
    ensures Ledger(Released(log), releasedTo, l.chunkSize) && releasedTo <= l.fileSize
    ensures if release && l.fileSize > 128 * 1024 * 1024
            then l.fileSize - releasedTo < Max(32 * 1024 * 1024, l.chunkSize)
            else Released(log) == []
  {
    hide Ledger, ReleasesBehind, Released, Passed;
    var releasing := release && l.fileSize > HASH_PASS_RELEASE_THRESHOLD;
    ghost var ranges: seq<(u64, u64)> := [];
    releasedTo, out, log := 0, [], [];
    NothingPassed(l);
    for index := 0 to l.count
      invariant |out| == index && forall i :: 0 <= i < index ==> out[i] == H(l.Slice(content, i))
      invariant Passed(l, log, index, ranges, releasedTo)
      invariant if releasing then Min(l.Start(index), l.fileSize) - releasedTo < Batch(l) else ranges == []
    {
      out := out + [H(l.Slice(content, index))];
      PassReads(l, log, index, ranges, releasedTo);
      log := log + [Read(index)];
      EndOfChunk(l, index);
      if releasing {
        var end := l.Start(index) + l.Len(index);
        if SaturatingSub(end, releasedTo) >= Batch(l) {
          PassReleases(l, log, index, ranges, releasedTo, end);
          log, ranges := log + [Release((releasedTo, end))], ranges + [(releasedTo, end)];
          releasedTo := end;
        }
      }
    }
    CountCovers(l);
    PassEnds(l, log, ranges, releasedTo);
  }

  lemma NothingPassed(l: ChunkLayout)
    requires l.Valid()
    ensures Passed(l, [], 0, [], 0)
  {
  }

  lemma PassEnds(l: ChunkLayout, log: seq<Act>, ranges: seq<(u64, u64)>, end: nat)
    requires l.Valid() && Passed(l, log, l.count, ranges, end)
    ensures ReleasesBehind(l, log) && forall i :: 0 <= i < l.count ==> Read(i) in log
    ensures Released(log) == ranges && Ledger(ranges, end, l.chunkSize) && end <= l.fileSize
  {
  }

  lemma EndOfChunk(l: ChunkLayout, i: nat)
    requires l.Valid() && i < l.count
    ensures l.Start(i) + l.Len(i) == Min(l.Start(i + 1), l.fileSize)
    ensures l.Start(i) < l.fileSize && l.Start(i) <= l.Start(i + 1)
    ensures l.Start(i) + l.Len(i) < l.fileSize ==> (l.Start(i) + l.Len(i)) % l.chunkSize == 0
  {
    StartInside(l, i);
    assert l.Start(i + 1) == l.Start(i) + l.chunkSize;
    MultipleOf(i + 1, l.chunkSize);
  }

  lemma CountCovers(l: ChunkLayout)
    requires l.Valid()
    ensures l.fileSize <= l.Start(l.count)
  {
    CeilAbove(l.fileSize, l.chunkSize);
  }
}
