// The receiver's byte counter (aetherlink-core recv.rs): seeded with whole
// chunks for whatever was resumed, clamped, then advanced by real chunk lengths.

module Counters {
  import opened Base
  import opened Layout
  import opened Bitmaps
  import opened WorkQueue

  /** How many of the first `n` chunks are held. */
  ghost function HeldCount(held: set<nat>, n: nat): nat {
    if n == 0 then 0 else HeldCount(held, n - 1) + (if n - 1 in held then 1 else 0)
  }

  ghost function HeldBytes(held: set<nat>, l: ChunkLayout, n: nat): nat {
    if n == 0 then 0 else HeldBytes(held, l, n - 1) + (if n - 1 in held then ChunkWeight(l, n - 1) else 0)
  }

  /** `set_count`, read off the set a bitmap denotes. */
  lemma {:induction false} SetCountIsHeldCount(v: Bitmap, n: nat)
    requires v.Valid() && n <= v.count
    ensures CountBelow(v.bits, n) == HeldCount(v.Members(), n)
    ensures n == v.count ==> v.setCount == HeldCount(v.Members(), n)
  {
    if n > 0 {
      SetCountIsHeldCount(v, n - 1);
      assert n - 1 in v.Members() <==> v.Has(n - 1);
    }
  }

  /** Held and missing bytes partition the file. */
  lemma {:induction false} HeldAndMissingPartition(held: set<nat>, l: ChunkLayout, n: nat)
    requires l.Valid() && n <= l.count
    ensures HeldBytes(held, l, n) + MissingBytes(held, l, n) == CoveredBy(l, n)
  {
    if n > 0 { HeldAndMissingPartition(held, l, n - 1); }
  }

  /** By how much counting whole chunks overstates one file: the short tail, if it is held. */
  ghost function Overshoot(held: set<nat>, l: ChunkLayout): nat
    requires l.Valid()
  {
    if l.count > 0 && l.count - 1 in held then l.chunkSize - l.Len(l.count - 1) else 0
  }

  /** Counting one whole chunk size per held chunk, step by step. */
  ghost function WholeBytes(held: set<nat>, chunkSize: nat, n: nat): nat {
    if n == 0 then 0 else WholeBytes(held, chunkSize, n - 1) + (if n - 1 in held then chunkSize else 0)
  }

  lemma {:induction false} WholeBytesIsProduct(held: set<nat>, chunkSize: nat, n: nat)
    ensures WholeBytes(held, chunkSize, n) == HeldCount(held, n) * chunkSize
  {
    if n > 0 {
      WholeBytesIsProduct(held, chunkSize, n - 1);
      var c := HeldCount(held, n - 1);
      assert (c + 1) * chunkSize == c * chunkSize + chunkSize;
    }
  }

  lemma {:induction false} WholeChunksBelowLast(held: set<nat>, l: ChunkLayout, n: nat)
    requires l.Valid() && n < l.count
    ensures WholeBytes(held, l.chunkSize, n) == HeldBytes(held, l, n)
  {
    if n > 0 {
      WholeChunksBelowLast(held, l, n - 1);
      LenExact(l, n - 1);
    }
  }

  lemma WholeChunksOvershoot(held: set<nat>, l: ChunkLayout)
    requires l.Valid()
    ensures HeldCount(held, l.count) * l.chunkSize == HeldBytes(held, l, l.count) + Overshoot(held, l)
  {
    WholeBytesIsProduct(held, l.chunkSize, l.count);
    if l.count > 0 { WholeChunksBelowLast(held, l, l.count - 1); }
  }

  // ----- several files ---------------------------------------------------------

  /** One accepted file: its geometry and what the receiver resumed with. */
  datatype Resumed = Resumed(layout: ChunkLayout, held: set<nat>)

  ghost predicate AllValid(files: seq<Resumed>) {
    forall f :: 0 <= f < |files| ==> files[f].layout.Valid()
  }

  /** `total_bytes`. */
  ghost function TotalBytes(files: seq<Resumed>): nat {
    if files == [] then 0 else TotalBytes(files[1..]) + files[0].layout.fileSize
  }

  /** `resumed_bytes`: whole chunks for every set bit. */
  ghost function ResumedBytes(files: seq<Resumed>): nat {
    if files == [] then 0
    else ResumedBytes(files[1..]) + HeldCount(files[0].held, files[0].layout.count) * files[0].layout.chunkSize
  }

  /** What an honest sender still transmits, each missing chunk once. */
  ghost function TravelBytes(files: seq<Resumed>): nat
    requires AllValid(files)
  {
    if files == [] then 0
    else TravelBytes(files[1..]) + MissingBytes(files[0].held, files[0].layout, files[0].layout.count)
  }

  ghost function TotalOvershoot(files: seq<Resumed>): nat
    requires AllValid(files)
  {
    if files == [] then 0 else TotalOvershoot(files[1..]) + Overshoot(files[0].held, files[0].layout)
  }

  /** The counter after every missing chunk has landed once. */
  ghost function FinalCount(files: seq<Resumed>): nat
    requires AllValid(files)
  {
    Min(ResumedBytes(files), TotalBytes(files)) + TravelBytes(files)
  }

  lemma {:induction false} CountersBalance(files: seq<Resumed>)
    requires AllValid(files)
    ensures ResumedBytes(files) + TravelBytes(files) == TotalBytes(files) + TotalOvershoot(files)
    ensures TravelBytes(files) <= TotalBytes(files)
  {
    if files != [] {
      var l, held := files[0].layout, files[0].held;
      CountersBalance(files[1..]);
      WholeChunksOvershoot(held, l);
      HeldAndMissingPartition(held, l, l.count);
      LengthsTile(l, l.count);
    }
  }

  /** The final count is at least the manifest total, exceeds it by at most the short tails
      that were already held, and is exact when none was. */
  lemma FinalCountBounds(files: seq<Resumed>)
    requires AllValid(files)
    ensures TotalBytes(files) <= FinalCount(files) <= TotalBytes(files) + TotalOvershoot(files)
    ensures FinalCount(files) ==
            TotalBytes(files) + TotalOvershoot(files) - Max(0, ResumedBytes(files) - TotalBytes(files))
    ensures TotalOvershoot(files) == 0 ==> FinalCount(files) == TotalBytes(files)
  {
    CountersBalance(files);
  }
}
