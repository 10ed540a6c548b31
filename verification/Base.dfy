// Shared vocabulary: machine integers, bytes, results, and the little-endian
// integer codec that both the frame header and the resume record use.

module Base {

  type byte = bv8
  type u16 = x: int | 0 <= x < 0x1_0000
  type u32 = x: int | 0 <= x < 0x1_0000_0000
  type u64 = x: int | 0 <= x < 0x1_0000_0000_0000_0000

  const U64_MAX: u64 := 0xFFFF_FFFF_FFFF_FFFF

  datatype Option<+T> = None | Some(value: T)

  datatype Result<+T, +E> = Ok(value: T) | Err(error: E)

  /** The errors of the wire-protocol crate. */
  datatype WireError =
    | ShortHeader(got: nat)
    | BadMagic(magic: u16)
    | UnsupportedVersion(version: byte)
    | UnknownMessageType(code: byte)
    | UnknownFlags(flags: u16)
    | ReservedNotZero
    | FrameTooLarge(length: u32)
    | KeepaliveWithPayload(length: u32)
    | InvalidChunkSize(chunkSize: u32)
    | ChunkOutOfRange(index: u64, count: u64)
    | OffsetOutOfRange(offset: u64, fileSize: u64)
    | ChunkHashConflict(index: u64)
    | BitmapLengthMismatch(got: nat, expected: nat)
    | BitmapPaddingSet
    | UnsafePath(path: string, reason: PathFault)
    | ManifestTooLarge(entries: nat)
    | DuplicateFileId(fileId: u64)
    | DuplicatePath(path: string)

  /** Why a peer-supplied path is refused. */
  datatype PathFault =
    | EmptyPath
    | OverLong
    | ControlCharacter
    | Backslash
    | Absolute
    | DriveLetter
    | Traversal
    | OverLongComponent
    | TrailingDotOrSpace
    | ReservedName
    | ResolvesToNothing
    | HasNul

  /** The digest type. BLAKE3 itself is a parameter `H` of every statement that needs it. */
  type Hash = seq<byte>
  type Hasher = seq<byte> -> Hash

  const HASH_LEN: nat := 32

  /** `H` always yields 32 bytes, as BLAKE3 does. */
  ghost predicate Digests(H: Hasher) {
    forall s :: |H(s)| == HASH_LEN
  }

  /** `H` does not collide on these two strings. Over all strings at once no 32-byte digest could meet
      this, so it is a hypothesis only about the pair at hand. */
  ghost predicate Separates(H: Hasher, a: seq<byte>, b: seq<byte>) {
    H(a) == H(b) ==> a == b
  }

  function Min(a: int, b: int): int { if a < b then a else b }
  function Max(a: int, b: int): int { if a < b then b else a }

  /** Rust's `div_ceil`, which never overflows. */
  function DivCeil(n: nat, d: nat): (q: nat)
    requires d > 0
  {
    n / d + (if n % d == 0 then 0 else 1)
  }

  function SaturatingMul(a: u64, b: u64): (r: u64) {
    if a * b > U64_MAX then U64_MAX else a * b
  }

  function SaturatingSub(a: nat, b: nat): nat { if a < b then 0 else a - b }

  /** The `n` bytes of `s` from offset `o`. */
  function Window(s: seq<byte>, o: nat, n: nat): (w: seq<byte>)
    requires o + n <= |s|
    ensures |w| == n
  {
    s[o..o + n]
  }

  /** A positional write. */
  function Splice(s: seq<byte>, o: nat, b: seq<byte>): (r: seq<byte>)
    requires o + |b| <= |s|
    ensures |r| == |s|
  {
    s[..o] + b + s[o + |b|..]
  }

  lemma SpliceOutside(s: seq<byte>, o: nat, b: seq<byte>, p: nat, n: nat)
    requires o + |b| <= |s| && p + n <= |s|
    ensures p + n <= o || o + |b| <= p ==> Window(Splice(s, o, b), p, n) == Window(s, p, n)
    ensures Window(Splice(s, o, b), o, |b|) == b
  {
  }

  // ----- little-endian integers ------------------------------------------

  function Pow256(n: nat): (p: nat)
    ensures p > 0
  {
    if n == 0 then 1 else 256 * Pow256(n - 1)
  }

  /** `to_le_bytes` for an `n`-byte integer. */
  function ToLE(x: nat, n: nat): (r: seq<byte>)
    ensures |r| == n
    decreases n
  {
    if n == 0 then [] else [(x % 256) as byte] + ToLE(x / 256, n - 1)
  }

  /** `from_le_bytes`. */
  function FromLE(s: seq<byte>): nat {
    if s == [] then 0 else s[0] as int + 256 * FromLE(s[1..])
  }

  lemma Pow256Values()
    ensures Pow256(2) == 0x1_0000
    ensures Pow256(4) == 0x1_0000_0000
    ensures Pow256(8) == 0x1_0000_0000_0000_0000
  {
    assert Pow256(1) == 256 && Pow256(3) == 0x100_0000;
    assert Pow256(5) == 0x100_0000_0000 && Pow256(7) == 0x100_0000_0000_0000;
  }

  lemma {:induction false} FromLEToLE(x: nat, n: nat)
    requires x < Pow256(n)
    ensures FromLE(ToLE(x, n)) == x
    decreases n
  {
    if n > 0 {
      FromLEToLE(x / 256, n - 1);
      LowByte(x % 256);
      var s := ToLE(x, n);
      assert s[0] == (x % 256) as byte && s[1..] == ToLE(x / 256, n - 1);
    }
  }

  /** Little-endian means: the first byte weighs 1, the next 256, and so on. */
  lemma FromLEWeighs(s: seq<byte>)
    ensures |s| == 2 ==> FromLE(s) == s[0] as int + 0x100 * s[1] as int
    ensures |s| == 4 ==>
      FromLE(s) == s[0] as int + 0x100 * s[1] as int + 0x1_0000 * s[2] as int + 0x100_0000 * s[3] as int
    ensures |s| == 8 ==>
      FromLE(s) == s[0] as int + 0x100 * s[1] as int + 0x1_0000 * s[2] as int + 0x100_0000 * s[3] as int
                   + 0x1_0000_0000 * (s[4] as int + 0x100 * s[5] as int + 0x1_0000 * s[6] as int
                                      + 0x100_0000 * s[7] as int)
  {
    if |s| == 2 { FromLETwo(s); }
    if |s| == 4 { FromLEFour(s); }
    if |s| == 8 {
      var t := s[4..];
      assert s[1..][1..][1..][1..] == t;
      FromLEFour(t);
      assert FromLE(s) == s[0] as int + 256 * FromLE(s[1..]);
      assert FromLE(s[1..]) == s[1] as int + 256 * FromLE(s[1..][1..]);
      assert FromLE(s[1..][1..]) == s[2] as int + 256 * FromLE(s[1..][1..][1..]);
      assert FromLE(s[1..][1..][1..]) == s[3] as int + 256 * FromLE(t);
    }
  }

  lemma FromLETwo(s: seq<byte>)
    requires |s| == 2
    ensures FromLE(s) == s[0] as int + 0x100 * s[1] as int
  {
    assert FromLE(s[1..]) == s[1] as int + 256 * FromLE(s[1..][1..]);
  }

  lemma FromLEFour(s: seq<byte>)
    requires |s| == 4
    ensures FromLE(s) == s[0] as int + 0x100 * s[1] as int + 0x1_0000 * s[2] as int + 0x100_0000 * s[3] as int
  {
    FromLETwo(s[2..]);
    assert s[1..][1..] == s[2..];
    assert FromLE(s[1..]) == s[1] as int + 256 * FromLE(s[2..]);
  }

  /** `x` stands at byte `o` as a little-endian integer of `n` bytes. */
  ghost predicate StandsAt(b: seq<byte>, o: nat, n: nat, x: nat) {
    o + n <= |b| && x ==
      if n == 2 then b[o] as int + 0x100 * b[o + 1] as int
      else if n == 4 then
        b[o] as int + 0x100 * b[o + 1] as int + 0x1_0000 * b[o + 2] as int + 0x100_0000 * b[o + 3] as int
      else if n == 8 then
        b[o] as int + 0x100 * b[o + 1] as int + 0x1_0000 * b[o + 2] as int + 0x100_0000 * b[o + 3] as int
        + 0x1_0000_0000 * (b[o + 4] as int + 0x100 * b[o + 5] as int + 0x1_0000 * b[o + 6] as int
                           + 0x100_0000 * b[o + 7] as int)
      else 0
  }

  lemma WindowStandsAt(b: seq<byte>, o: nat, n: nat, x: nat)
    requires o + n <= |b| && n in {2, 4, 8} && b[o..o + n] == ToLE(x, n) && x < Pow256(n)
    ensures StandsAt(b, o, n, x)
  {
    hide ToLE, FromLE;
    FromLEToLE(x, n);
    FromLEWeighs(b[o..o + n]);
  }

  lemma LowByte(x: nat)
    requires x < 256
    ensures (x as byte) as int == x
  {
    assert x % 256 == x;
  }

  lemma {:induction false} ToLEFromLE(s: seq<byte>)
    ensures FromLE(s) < Pow256(|s|)
    ensures ToLE(FromLE(s), |s|) == s
  {
    if s != [] {
      ToLEFromLE(s[1..]);
      assert FromLE(s) % 256 == s[0] as int && FromLE(s) / 256 == FromLE(s[1..]);
      assert [s[0]] + s[1..] == s;
    }
  }
}
