// Chunk geometry (aetherlink-proto/src/chunk.rs): the verification and resume
// unit. Everything the engine does with offsets rests on the tiling lemmas here.

module Layout {
  import opened Base

  const MIN_CHUNK_SIZE: u32 := 64 * 1024
  const MAX_CHUNK_SIZE: u32 := 64 * 1024 * 1024

  predicate IsPowerOfTwo(n: nat) {
    n == 1 || (n > 1 && n % 2 == 0 && IsPowerOfTwo(n / 2))
  }

  /** `q` is the least number of pieces of size `d` that covers `n`. */
  predicate IsCeiling(q: nat, n: nat, d: nat) {
    n <= q * d && (q > 0 ==> (q - 1) * d < n)
  }

  function Pow2(k: nat): nat { if k == 0 then 1 else 2 * Pow2(k - 1) }

  /** The test is what its name says. */
  lemma {:induction false} PowerOfTwoMeans(n: nat)
    ensures IsPowerOfTwo(n) <==> exists k: nat :: n == Pow2(k)
  {
    if n == 1 {
      assert n == Pow2(0);
    } else {
      if n > 1 && n % 2 == 0 { PowerOfTwoMeans(n / 2); }
      if IsPowerOfTwo(n) {
        var k: nat :| n / 2 == Pow2(k);
        assert n == Pow2(k + 1);
      }
      if k: nat :| n == Pow2(k) {
        assert n == 2 * Pow2(k - 1);
        Pow2Positive(k - 1);
        assert n / 2 == Pow2(k - 1);
      }
    }
  }

  lemma {:induction false} Pow2Positive(k: nat)
    ensures Pow2(k) > 0
  {
    if k > 0 { Pow2Positive(k - 1); }
  }

  datatype ChunkLayout = ChunkLayout(fileSize: u64, chunkSize: u32, count: u64) {

    /** What `ChunkLayout::new` establishes. */
    predicate Valid() {
      && MIN_CHUNK_SIZE <= chunkSize <= MAX_CHUNK_SIZE
      && IsPowerOfTwo(chunkSize)
      && IsCeiling(count, fileSize, chunkSize)
    }

    /** First byte of chunk `i`. */
    function Start(i: nat): (o: nat) { i * chunkSize }

    /** Byte length of chunk `i`. */
    function Len(i: nat): (n: nat)
      requires Valid() && i < count
      ensures 0 < n <= chunkSize && Start(i) + n <= fileSize
    {
      StartInside(this, i);
      Min(fileSize - Start(i), chunkSize)
    }

    /** `range`: offset and length of a chunk. */
    function Range(index: u64): (r: Result<(u64, u32), WireError>)
      requires Valid()
      ensures r.Ok? <==> index < count
      ensures r.Ok? ==> r.value == (Start(index), Len(index))
    {
      if index >= count then Err(ChunkOutOfRange(index, count))
      else
        StartInside(this, index);
        var offset := index * chunkSize;
        Ok((offset, Min(fileSize - offset, chunkSize)))
    }

    /** `index_of`: the chunk holding a byte offset. */
    function IndexOf(offset: u64): (r: Result<u64, WireError>)
      requires Valid()
      ensures r.Ok? <==> offset < fileSize
    {
      if offset >= fileSize then Err(OffsetOutOfRange(offset, fileSize))
      else
        QuotientBelow(offset, chunkSize);
        Ok(offset / chunkSize)
    }

    /** The bytes of chunk `i` in a file image of the full length. */
    function Slice(content: seq<byte>, i: nat): (bytes: seq<byte>)
      requires Valid() && i < count && |content| == fileSize
      ensures |bytes| == Len(i)
    {
      Window(content, Start(i), Len(i))
    }
  }

  /** `ChunkLayout::new`. */
  function NewLayout(fileSize: u64, chunkSize: u32): (r: Result<ChunkLayout, WireError>)
    ensures r.Ok? <==> MIN_CHUNK_SIZE <= chunkSize <= MAX_CHUNK_SIZE && IsPowerOfTwo(chunkSize)
    ensures r.Ok? ==> r.value.Valid() && r.value.fileSize == fileSize && r.value.chunkSize == chunkSize
    ensures r.Err? ==> r.error == InvalidChunkSize(chunkSize)
  {
    if !(MIN_CHUNK_SIZE <= chunkSize <= MAX_CHUNK_SIZE) then Err(InvalidChunkSize(chunkSize))
    else if !IsPowerOfTwo(chunkSize) then Err(InvalidChunkSize(chunkSize))
    else
      CeilingBounds(fileSize, chunkSize);
      Ok(ChunkLayout(fileSize, chunkSize, DivCeil(fileSize, chunkSize)))
  }

  // ----- arithmetic -------------------------------------------------------

  lemma MulMonotone(a: nat, b: nat, c: nat)
    requires a <= b
    ensures a * c <= b * c
  {
    assert (b - a) * c >= 0;
    assert b * c == a * c + (b - a) * c;
  }

  lemma QuotientBelow(n: nat, d: nat)
    requires d > 0
    ensures (n / d) * d <= n < (n / d + 1) * d
    ensures n / d <= n
  {
    var q := n / d;
    assert n == q * d + n % d;
    assert (q + 1) * d == q * d + d;
    FactorBelow(q, d);
  }

  lemma FactorBelow(q: nat, d: nat)
    requires d > 0
    ensures q <= q * d
  {
    MulMonotone(1, d, q);
  }

  lemma QuotientIs(n: nat, d: nat, q: nat)
    requires d > 0 && q * d <= n < (q + 1) * d
    ensures n / d == q
  {
    QuotientBelow(n, d);
    if n / d < q { MulMonotone(n / d + 1, q, d); assert false; }
    if n / d > q { MulMonotone(q + 1, n / d, d); assert false; }
  }

  /** The ceiling is the least count of chunks that covers the file. */
  lemma CeilingBounds(n: nat, d: nat)
    requires d > 0
    ensures n <= DivCeil(n, d) * d
    ensures DivCeil(n, d) > 0 ==> (DivCeil(n, d) - 1) * d < n
    ensures DivCeil(n, d) <= n
  {
    var q := n / d;
    assert n == q * d + n % d;
    assert (q + 1) * d == q * d + d;
    FactorBelow(q, d);
    if q > 0 { assert (q - 1) * d == q * d - d; }
  }

  lemma CeilingUnique(p: nat, q: nat, n: nat, d: nat)
    requires IsCeiling(p, n, d) && IsCeiling(q, n, d)
    ensures p == q
  {
    if p < q { MulMonotone(p, q - 1, d); }
    if q < p { MulMonotone(q, p - 1, d); }
  }

  /** The accepted chunk sizes: powers of two from 64 KiB to 64 MiB. */
  lemma AcceptedSizes(fileSize: u64, chunkSize: u32)
    ensures NewLayout(fileSize, chunkSize).Ok? <==>
            65_536 <= chunkSize <= 67_108_864 && exists k: nat :: chunkSize == Pow2(k)
  {
    PowerOfTwoMeans(chunkSize);
  }

  /** Valid layouts are exactly what `ChunkLayout::new` returns. */
  lemma ValidIffNew(l: ChunkLayout)
    ensures l.Valid() <==> NewLayout(l.fileSize, l.chunkSize) == Ok(l)
  {
    if l.Valid() {
      CeilingBounds(l.fileSize, l.chunkSize);
      CeilingUnique(l.count, DivCeil(l.fileSize, l.chunkSize), l.fileSize, l.chunkSize);
    }
  }

  // ----- tiling -----------------------------------------------------------

  lemma StartInside(l: ChunkLayout, i: nat)
    requires l.Valid() && i < l.count
    ensures l.Start(i) < l.fileSize
    ensures l.Start(i + 1) == l.Start(i) + l.chunkSize
    ensures i + 1 < l.count ==> l.Start(i + 1) < l.fileSize
  {
    MulMonotone(i, l.count - 1, l.chunkSize);
    if i + 1 < l.count { MulMonotone(i + 1, l.count - 1, l.chunkSize); }
  }

  /** Every chunk but the last is full, and the last one ends the file. */
  lemma LenExact(l: ChunkLayout, i: nat)
    requires l.Valid() && i < l.count
    ensures i + 1 < l.count ==> l.Len(i) == l.chunkSize
    ensures i + 1 == l.count ==> l.Start(i) + l.Len(i) == l.fileSize
    ensures l.Start(i) + l.Len(i) == Min(l.Start(i + 1), l.fileSize)
  {
    StartInside(l, i);
  }

  /** `index_of` and `range` are inverse: an offset lies in exactly the chunk `index_of` names. */
  lemma IndexOfInvertsRange(l: ChunkLayout, offset: u64, i: nat)
    requires l.Valid() && offset < l.fileSize
    ensures l.IndexOf(offset).value < l.count
    ensures l.IndexOf(offset).value == i <==> i < l.count && l.Start(i) <= offset < l.Start(i) + l.Len(i)
  {
    var q := l.IndexOf(offset).value;
    QuotientBelow(offset, l.chunkSize);
    if q >= l.count {
      MulMonotone(l.count, q, l.chunkSize);
      assert false;
    }
    LenExact(l, q);
    StartInside(l, q);
    if i < l.count && l.Start(i) <= offset < l.Start(i) + l.Len(i) {
      StartInside(l, i);
      QuotientIs(offset, l.chunkSize, i);
    }
  }

  /** Two different chunks share no byte. */
  lemma ChunksDisjoint(l: ChunkLayout, i: nat, j: nat)
    requires l.Valid() && i < j < l.count
    ensures l.Start(i) + l.Len(i) <= l.Start(j)
  {
    StartInside(l, i);
    MulMonotone(i + 1, j, l.chunkSize);
  }

  /** The chunk lengths below `n` add up to the bytes those chunks cover. */
  ghost function CoveredBy(l: ChunkLayout, n: nat): (total: nat)
    requires l.Valid() && n <= l.count
  {
    if n == 0 then 0 else CoveredBy(l, n - 1) + l.Len(n - 1)
  }

  lemma {:induction false} LengthsTile(l: ChunkLayout, n: nat)
    requires l.Valid() && n <= l.count
    ensures CoveredBy(l, n) == Min(l.Start(n), l.fileSize)
    ensures n == l.count ==> CoveredBy(l, n) == l.fileSize
  {
    if n > 0 {
      LengthsTile(l, n - 1);
      StartInside(l, n - 1);
      LenExact(l, n - 1);
    }
  }

  /** A file is determined by its chunks. */
  lemma EqualChunksEqualFiles(l: ChunkLayout, a: seq<byte>, b: seq<byte>)
    requires l.Valid() && |a| == |b| == l.fileSize
    requires forall i :: 0 <= i < l.count ==> l.Slice(a, i) == l.Slice(b, i)
    ensures a == b
  {
    forall k | 0 <= k < |a|
      ensures a[k] == b[k]
    {
      var i := l.IndexOf(k).value;
      IndexOfInvertsRange(l, k, i);
      assert l.Slice(a, i)[k - l.Start(i)] == l.Slice(b, i)[k - l.Start(i)];
    }
  }

  /** Concatenating the first `n` chunks. */
  function Reassemble(l: ChunkLayout, content: seq<byte>, n: nat): seq<byte>
    requires l.Valid() && n <= l.count && |content| == l.fileSize
  {
    if n == 0 then [] else Reassemble(l, content, n - 1) + l.Slice(content, n - 1)
  }

  lemma ExtendPrefix(s: seq<byte>, o: nat, n: nat)
    requires o + n <= |s|
    ensures s[..o] + Window(s, o, n) == s[..o + n]
  {
  }

  lemma {:induction false} ReassembleIsPrefix(l: ChunkLayout, content: seq<byte>, n: nat)
    requires l.Valid() && n <= l.count && |content| == l.fileSize
    ensures 0 <= Min(l.Start(n), l.fileSize) <= |content|
    ensures Reassemble(l, content, n) == content[..Min(l.Start(n), l.fileSize)]
    ensures n == l.count ==> Reassemble(l, content, n) == content
  {
    if n > 0 {
      ReassembleIsPrefix(l, content, n - 1);
      StartInside(l, n - 1);
      LenExact(l, n - 1);
      ExtendPrefix(content, l.Start(n - 1), l.Len(n - 1));
    }
  }

  // ----- writing one chunk --------------------------------------------------

  /** The bytes of a chunk laid at their place in an image of the file. */
  function Placed(l: ChunkLayout, content: seq<byte>, i: nat, bytes: seq<byte>): (r: seq<byte>)
    requires l.Valid() && i < l.count && |bytes| == l.Len(i) && |content| == l.fileSize
    ensures |r| == |content|
  {
    Splice(content, l.Start(i), bytes)
  }

  /** A chunk write changes that chunk's slice and no other. */
  lemma PlacedSlice(l: ChunkLayout, content: seq<byte>, j: nat, bytes: seq<byte>, i: nat)
    requires l.Valid() && |content| == l.fileSize && j < l.count && |bytes| == l.Len(j) && i < l.count
    ensures l.Slice(Placed(l, content, j, bytes), i) == if i == j then bytes else l.Slice(content, i)
  {
    hide Splice;
    if i < j { ChunksDisjoint(l, i, j); }
    if j < i { ChunksDisjoint(l, j, i); }
    SpliceOutside(content, l.Start(j), bytes, l.Start(i), l.Len(i));
  }
}
