// The resume bitmap (aetherlink-proto/src/bitmap.rs): one bit per chunk, LSB
// first within each byte, refined to a finite set of chunk indices.

module Bitmaps {
  import opened Base

  // ----- bits of a byte ---------------------------------------------------

  /** `1u8 << k`, one place at a time. */
  function Mask(k: nat): byte
    requires k < 8
  {
    if k == 0 then 1 else Mask(k - 1) << 1
  }

  /** `0xFFu8 >> t`, one place at a time. */
  function LowOnes(t: nat): byte
    requires t < 8
  {
    if t == 0 then 0xFF else LowOnes(t - 1) >> 1
  }

  predicate BitOf(b: byte, k: nat)
    requires k < 8
  {
    b & Mask(k) != 0
  }

  function BitCount(b: byte, k: nat): (n: nat)
    requires k <= 8
    ensures n <= k
  {
    if k == 0 then 0 else BitCount(b, k - 1) + (if BitOf(b, k - 1) then 1 else 0)
  }

  /** `count_ones`. */
  function CountOnes(b: byte): nat { BitCount(b, 8) }

  lemma MaskValues()
    ensures Mask(0) == 1 && Mask(1) == 2 && Mask(2) == 4 && Mask(3) == 8
    ensures Mask(4) == 16 && Mask(5) == 32 && Mask(6) == 64 && Mask(7) == 128
    ensures LowOnes(1) == 127 && LowOnes(2) == 63 && LowOnes(3) == 31 && LowOnes(4) == 15
    ensures LowOnes(5) == 7 && LowOnes(6) == 3 && LowOnes(7) == 1
  {
  }

  lemma OrSetsOneBit(b: byte, k: nat, j: nat)
    requires k < 8 && j < 8
    ensures BitOf(b | Mask(k), j) == (BitOf(b, j) || j == k)
  {
    MaskValues();
  }

  lemma BitsDetermineByte(a: byte, b: byte)
    requires forall k :: 0 <= k < 8 ==> BitOf(a, k) == BitOf(b, k)
    ensures a == b
  {
    MaskValues();
    assert BitOf(a, 0) == BitOf(b, 0) && BitOf(a, 1) == BitOf(b, 1);
    assert BitOf(a, 2) == BitOf(b, 2) && BitOf(a, 3) == BitOf(b, 3);
    assert BitOf(a, 4) == BitOf(b, 4) && BitOf(a, 5) == BitOf(b, 5);
    assert BitOf(a, 6) == BitOf(b, 6) && BitOf(a, 7) == BitOf(b, 7);
  }

  /** The padding mask of `from_bytes` is zero exactly when the top `t` bits are clear. */
  lemma PaddingMask(b: byte, t: nat)
    requires 0 < t < 8
    ensures b & !LowOnes(t) == 0 <==> forall k :: 8 - t <= k < 8 ==> !BitOf(b, k)
  {
    MaskValues();
    if forall k :: 8 - t <= k < 8 ==> !BitOf(b, k) {
      assert !BitOf(b, 7);
      assert t >= 2 ==> !BitOf(b, 6);
      assert t >= 3 ==> !BitOf(b, 5);
      assert t >= 4 ==> !BitOf(b, 4);
      assert t >= 5 ==> !BitOf(b, 3);
      assert t >= 6 ==> !BitOf(b, 2);
      assert t >= 7 ==> !BitOf(b, 1);
    }
  }

  // ----- bits of a byte string --------------------------------------------

  predicate BitAt(bits: seq<byte>, i: nat)
    requires i < 8 * |bits|
  {
    BitOf(bits[i / 8], i % 8)
  }

  /** How many of the first `n` bits are set. */
  ghost function CountBelow(bits: seq<byte>, n: nat): (c: nat)
    requires n <= 8 * |bits|
    ensures c <= n
  {
    if n == 0 then 0 else CountBelow(bits, n - 1) + (if BitAt(bits, n - 1) then 1 else 0)
  }

  lemma {:induction false} CountFull(bits: seq<byte>, n: nat)
    requires n <= 8 * |bits|
    ensures CountBelow(bits, n) == n <==> forall i: nat :: i < n ==> BitAt(bits, i)
  {
    if n > 0 { CountFull(bits, n - 1); }
  }

  lemma {:induction false} CountPastClearBits(bits: seq<byte>, n: nat, m: nat)
    requires n <= m <= 8 * |bits|
    requires forall i: nat :: n <= i < m ==> !BitAt(bits, i)
    ensures CountBelow(bits, m) == CountBelow(bits, n)
    decreases m
  {
    if n < m { CountPastClearBits(bits, n, m - 1); }
  }

  lemma {:induction false} CountAfterSetting(a: seq<byte>, b: seq<byte>, i: nat, n: nat)
    requires |a| == |b| && n <= 8 * |a| && i < 8 * |a| && !BitAt(a, i)
    requires forall j: nat :: j < 8 * |a| ==> BitAt(b, j) == (BitAt(a, j) || j == i)
    ensures CountBelow(b, n) == CountBelow(a, n) + (if i < n then 1 else 0)
  {
    if n > 0 { CountAfterSetting(a, b, i, n - 1); }
  }

  /** `bytes.iter().map(count_ones).sum()`. */
  function SumOnes(bits: seq<byte>): nat {
    if bits == [] then 0 else SumOnes(bits[..|bits| - 1]) + CountOnes(bits[|bits| - 1])
  }

  lemma {:induction false} CountWithinByte(bits: seq<byte>, m: nat, k: nat)
    requires m < |bits| && k <= 8
    ensures CountBelow(bits, 8 * m + k) == CountBelow(bits, 8 * m) + BitCount(bits[m], k)
  {
    if k > 0 {
      CountWithinByte(bits, m, k - 1);
      assert (8 * m + k - 1) / 8 == m && (8 * m + k - 1) % 8 == k - 1;
    }
  }

  lemma {:induction false} SumOnesIsCount(bits: seq<byte>, m: nat)
    requires m <= |bits|
    ensures SumOnes(bits[..m]) == CountBelow(bits, 8 * m)
  {
    if m == 0 {
      assert bits[..0] == [];
    } else {
      SumOnesIsCount(bits, m - 1);
      CountWithinByte(bits, m - 1, 8);
      assert bits[..m][..m - 1] == bits[..m - 1];
    }
  }

  // ----- the bitmap value --------------------------------------------------

  /** A `ChunkBitmap` as a value: what `clone`, `as_bytes` and equality see. */
  datatype Bitmap = Bitmap(bits: seq<byte>, count: u64, setCount: u64) {

    predicate Sized() {
      |bits| == DivCeil(count, 8)
    }

    predicate Has(i: nat)
      requires Sized() && i < count
    {
      BitAt(bits, i)
    }

    /** The set of chunks marked present. */
    ghost function Members(): set<nat>
      requires Sized()
    {
      set i: nat | i < count && Has(i)
    }

    ghost predicate PaddingClear()
      requires Sized()
    {
      forall i: nat :: count <= i < 8 * |bits| ==> !BitAt(bits, i)
    }

    ghost predicate Valid() {
      && Sized()
      && PaddingClear()
      && setCount == CountBelow(bits, count)
    }

    /** `is_complete`, decided from the cached count alone. */
    predicate IsComplete() {
      setCount == count
    }

    /** `get`. */
    function Get(index: u64): (r: Result<bool, WireError>)
      requires Valid()
      ensures r.Ok? <==> index < count
      ensures r.Ok? ==> (r.value <==> index in Members())
    {
      if index >= count then Err(ChunkOutOfRange(index, count))
      else Ok(bits[index / 8] & Mask(index % 8) != 0)
    }
  }

  const BIT_VALUES: seq<byte> := [1, 2, 4, 8, 16, 32, 64, 128]

  /** Chunk `i` is bit `i % 8` of byte `i / 8`, the least significant first. */
  lemma LsbFirst(v: Bitmap, i: nat)
    requires v.Sized() && i < v.count
    ensures i in v.Members() <==> v.bits[i / 8] & BIT_VALUES[i % 8] != 0
  {
    MaskValues();
  }

  /** The cached count decides completeness: every chunk is a member iff the counts agree. */
  lemma CompleteIffAllSet(v: Bitmap)
    requires v.Valid()
    ensures v.IsComplete() <==> forall i: nat :: i < v.count ==> i in v.Members()
  {
    CountFull(v.bits, v.count);
    if forall i: nat :: i < v.count ==> i in v.Members() {
      forall i: nat | i < v.count
        ensures BitAt(v.bits, i)
      {
        assert i in v.Members();
      }
    }
  }

  lemma CardinalityGrows(s: set<nat>, x: nat)
    requires x !in s
    ensures |s + {x}| == |s| + 1
  {
  }

  ghost function Ones(bits: seq<byte>, n: nat): set<nat>
    requires n <= 8 * |bits|
  {
    set i: nat | i < n && BitAt(bits, i)
  }

  lemma {:induction false} CountIsCardinality(bits: seq<byte>, n: nat)
    requires n <= 8 * |bits|
    ensures CountBelow(bits, n) == |Ones(bits, n)|
  {
    if n > 0 {
      CountIsCardinality(bits, n - 1);
      CardinalityGrows(Ones(bits, n - 1), n - 1);
      assert Ones(bits, n) == if BitAt(bits, n - 1) then Ones(bits, n - 1) + {n - 1} else Ones(bits, n - 1);
    }
  }

  /** The cached count is the cardinality of the set the bitmap denotes. */
  lemma SetCountIsCardinality(v: Bitmap)
    requires v.Valid()
    ensures v.setCount == |v.Members()|
  {
    CountIsCardinality(v.bits, v.count);
    assert v.Members() == Ones(v.bits, v.count);
  }

  /** `ChunkBitmap::new`. */
  function NewBitmap(count: u64): (v: Bitmap)
    ensures v.Sized() && v.count == count
  {
    Bitmap(seq(DivCeil(count, 8), _ => 0 as byte), count, 0)
  }

  lemma NewIsEmpty(count: u64)
    ensures NewBitmap(count).Valid() && NewBitmap(count).Members() == {}
  {
    var v := NewBitmap(count);
    forall i: nat | i < 8 * |v.bits|
      ensures !BitAt(v.bits, i)
    {
      assert (0 as byte) & Mask(i % 8) == 0;
    }
    CountPastClearBits(v.bits, 0, count);
  }

  /** `from_bytes`: the decoder applied to a peer's bitmap and to a resume record. */
  function FromBytes(bytes: seq<byte>, count: u64): (r: Result<Bitmap, WireError>)
  {
    var expected := DivCeil(count, 8);
    if |bytes| != expected then Err(BitmapLengthMismatch(|bytes|, expected))
    else
      var trailing := expected * 8 - count;
      if trailing > 0 && |bytes| > 0 && bytes[|bytes| - 1] & !LowOnes(trailing) != 0
      then Err(BitmapPaddingSet)
      else
        SumOnesBounded(bytes, count);
        Ok(Bitmap(bytes, count, SumOnes(bytes)))
  }

  lemma SumOnesBounded(bytes: seq<byte>, count: u64)
    requires |bytes| == DivCeil(count, 8)
    requires
      var trailing := 8 * |bytes| - count;
      trailing > 0 ==> |bytes| > 0 && bytes[|bytes| - 1] & !LowOnes(trailing) == 0
    ensures SumOnes(bytes) == CountBelow(bytes, count)
    ensures Bitmap(bytes, count, 0).PaddingClear()
  {
    PaddingTest(bytes, count);
    assert bytes[..|bytes|] == bytes;
    SumOnesIsCount(bytes, |bytes|);
    CountPastClearBits(bytes, count, 8 * |bytes|);
  }

  lemma PaddingTest(bytes: seq<byte>, count: u64)
    requires |bytes| == DivCeil(count, 8)
    ensures
      var trailing := 8 * |bytes| - count;
      (trailing > 0 ==> |bytes| > 0 && trailing < 8) &&
      (trailing > 0 ==>
        (bytes[|bytes| - 1] & !LowOnes(trailing) == 0) == Bitmap(bytes, count, 0).PaddingClear())
  {
    var trailing := 8 * |bytes| - count;
    var v := Bitmap(bytes, count, 0);
    if trailing > 0 {
      var last := bytes[|bytes| - 1];
      PaddingMask(last, trailing);
      var base := 8 * (|bytes| - 1);
      if v.PaddingClear() {
        forall k | 8 - trailing <= k < 8
          ensures !BitOf(last, k)
        {
          assert !BitAt(bytes, base + k);
          assert (base + k) / 8 == |bytes| - 1 && (base + k) % 8 == k;
        }
      }
      if forall k :: 8 - trailing <= k < 8 ==> !BitOf(last, k) {
        forall i: nat | count <= i < 8 * |bytes|
          ensures !BitAt(bytes, i)
        {
          assert i / 8 == |bytes| - 1 && i % 8 == i - base;
        }
      }
    }
  }

  /** `from_bytes` accepts exactly the byte images of bitmaps of that length, and what it
      returns is that bitmap, with its cached count right. */
  lemma FromBytesAccepts(bytes: seq<byte>, count: u64)
    ensures FromBytes(bytes, count).Ok? <==>
              |bytes| == DivCeil(count, 8) && Bitmap(bytes, count, 0).PaddingClear()
    ensures
      var r := FromBytes(bytes, count);
      r.Ok? ==> r.value.Valid() && r.value.bits == bytes && r.value.count == count
  {
    if |bytes| == DivCeil(count, 8) {
      PaddingTest(bytes, count);
      var r := FromBytes(bytes, count);
      if r.Ok? {
        SumOnesBounded(bytes, count);
      }
    }
  }

  /** Parsing inverts `as_bytes`, count and all. */
  lemma FromBytesInvertsAsBytes(v: Bitmap)
    requires v.Valid()
    ensures FromBytes(v.bits, v.count) == Ok(v)
  {
    FromBytesAccepts(v.bits, v.count);
    assert Bitmap(v.bits, v.count, 0).PaddingClear();
  }

  /** The representation is canonical: equal sets have equal bytes. */
  lemma MembersDetermineBitmap(v: Bitmap, w: Bitmap)
    requires v.Valid() && w.Valid() && v.count == w.count && v.Members() == w.Members()
    ensures v == w
  {
    forall m | 0 <= m < |v.bits|
      ensures v.bits[m] == w.bits[m]
    {
      forall k | 0 <= k < 8
        ensures BitOf(v.bits[m], k) == BitOf(w.bits[m], k)
      {
        var i := 8 * m + k;
        assert i / 8 == m && i % 8 == k;
        assert BitAt(v.bits, i) == (i in v.Members());
        assert BitAt(w.bits, i) == (i in w.Members());
      }
      BitsDetermineByte(v.bits[m], w.bits[m]);
    }
    assert v.bits == w.bits;
  }

  lemma AddingRoom(v: Bitmap, i: nat)
    requires v.Valid() && i < v.count && !v.Has(i)
    ensures v.setCount < v.count
  {
    CountFull(v.bits, v.count);
  }

  /** The effect of `set` on the value. */
  function WithBit(v: Bitmap, i: nat): (w: Bitmap)
    requires v.Valid() && i < v.count
    ensures w.Sized() && w.count == v.count
  {
    if v.bits[i / 8] & Mask(i % 8) != 0 then v
    else
      AddingRoom(v, i);
      v.(bits := v.bits[i / 8 := v.bits[i / 8] | Mask(i % 8)], setCount := v.setCount + 1)
  }

  /** Or-ing a mask into a byte sets the bit it names and no other. */
  lemma OrFlipsOne(bits: seq<byte>, i: nat, j: nat)
    requires i < 8 * |bits| && j < 8 * |bits|
    ensures BitAt(bits[i / 8 := bits[i / 8] | Mask(i % 8)], j) == (BitAt(bits, j) || j == i)
  {
    hide BitOf, Mask;
    if j / 8 == i / 8 { OrSetsOneBit(bits[i / 8], i % 8, j % 8); }
  }

  lemma MaskedIsBit(bits: seq<byte>, i: nat)
    requires i < 8 * |bits|
    ensures BitAt(bits, i) <==> bits[i / 8] & Mask(i % 8) != 0
  {
    hide Mask;
  }

  lemma WithBitFlipsOne(v: Bitmap, i: nat, j: nat)
    requires v.Valid() && i < v.count && j < 8 * |v.bits|
    ensures BitAt(WithBit(v, i).bits, j) == (BitAt(v.bits, j) || j == i)
  {
    hide BitAt, Mask, Bitmap.PaddingClear, CountBelow;
    MaskedIsBit(v.bits, i);
    OrFlipsOne(v.bits, i, j);
  }

  /** Setting a bit adds exactly that index, keeps the padding clear and the count right. */
  lemma WithBitAddsMember(v: Bitmap, i: nat)
    requires v.Valid() && i < v.count
    ensures WithBit(v, i).Valid()
    ensures WithBit(v, i).Members() == v.Members() + {i}
    ensures i in v.Members() ==> WithBit(v, i) == v
  {
    var w := WithBit(v, i);
    forall j: nat | j < 8 * |v.bits|
      ensures BitAt(w.bits, j) == (BitAt(v.bits, j) || j == i)
    {
      WithBitFlipsOne(v, i, j);
    }
    if !v.Has(i) { CountAfterSetting(v.bits, w.bits, i, v.count); }
  }

  // ----- the mutable bitmap -------------------------------------------------

  class ChunkBitmap {
    var bits: seq<byte>
    const count: u64
    var setCount: u64

    ghost predicate Valid()
      reads this
    {
      Value().Valid()
    }

    function Value(): Bitmap
      reads this
    {
      Bitmap(bits, count, setCount)
    }

    constructor (count: u64)
      ensures Valid() && this.count == count && Value().Members() == {}
    {
      NewIsEmpty(count);
      this.bits := NewBitmap(count).bits;
      this.count := count;
      this.setCount := 0;
    }

    /** `set`: idempotent, and out of range is an error that changes nothing. */
    method Set(index: u64) returns (r: Result<(), WireError>)
      requires Valid()
      modifies this
      ensures Valid()
      ensures r.Ok? <==> index < count
      ensures r.Ok? ==> Value() == WithBit(old(Value()), index)
      ensures r.Ok? ==> Value().Members() == old(Value().Members()) + {index}
      ensures r.Err? ==> Value() == old(Value()) && r.error == ChunkOutOfRange(index, count)
    {
      if index >= count {
        return Err(ChunkOutOfRange(index, count));
      }
      WithBitAddsMember(Value(), index);
      Mark(index);
      return Ok(());
    }

    method Mark(index: u64)
      requires Valid() && index < count
      modifies this
      ensures Value() == WithBit(old(Value()), index)
    {
      var b, mask := bits[index / 8], Mask(index % 8);
      if b & mask == 0 {
        AddingRoom(Value(), index);
        bits := bits[index / 8 := b | mask];
        setCount := setCount + 1;
      }
    }
  }
}
