// The resume record (aetherlink-core/src/resume.rs): the bitmap with the identity
// of the file it describes and a checksum, and the two ways of learning what a
// staging file already holds.

module Record {
  import opened Base
  import opened Layout
  import opened Bitmaps

  /** `AETHRSM` and the format version. */
  const RECORD_MAGIC: seq<byte> := [0x41, 0x45, 0x54, 0x48, 0x52, 0x53, 0x4D, 0x31]
  const RECORD_HEADER_LEN: nat := 8 + 4 + 8 + 8 + 32

  datatype StateKey = StateKey(rootHash: Hash, fileSize: u64, chunkSize: u32) {
    predicate Valid() { |rootHash| == HASH_LEN }
  }

  /** The part of a record the checksum covers. */
  function Body(key: StateKey, v: Bitmap): seq<byte> {
    RECORD_MAGIC + ToLE(key.chunkSize, 4) + ToLE(v.count, 8) + ToLE(key.fileSize, 8) + key.rootHash + v.bits
  }

  function EncodeRecord(H: Hasher, key: StateKey, v: Bitmap): seq<byte> {
    Body(key, v) + H(Body(key, v))
  }

  /** The buffer `persist` grows before it touches the disk. */
  method BuildRecord(H: Hasher, key: StateKey, v: Bitmap) returns (buf: seq<byte>)
    ensures buf == EncodeRecord(H, key, v)
  {
    hide ToLE;
    buf := RECORD_MAGIC;
    buf := buf + ToLE(key.chunkSize, 4);
    buf := buf + ToLE(v.count, 8);
    buf := buf + ToLE(key.fileSize, 8);
    buf := buf + key.rootHash;
    buf := buf + v.bits;
    var checksum := H(buf);
    buf := buf + checksum;
  }

  /** Where every field of a record stands: magic, chunk size, chunk count, file size, root hash, bitmap,
      and the hash of all that. */
  lemma RecordLayout(H: Hasher, key: StateKey, v: Bitmap)
    requires Digests(H) && key.Valid()
    ensures
      var b := EncodeRecord(H, key, v);
      && |b| == 60 + |v.bits| + 32
      && b[0..8] == [65, 69, 84, 72, 82, 83, 77, 49]
      && StandsAt(b, 8, 4, key.chunkSize) && StandsAt(b, 12, 8, v.count) && StandsAt(b, 20, 8, key.fileSize)
      && b[28..60] == key.rootHash && b[60..60 + |v.bits|] == v.bits
      && b[60 + |v.bits|..] == H(b[..60 + |v.bits|])
  {
    hide ToLE, StandsAt;
    var body, b := Body(key, v), EncodeRecord(H, key, v);
    Pow256Values();
    BodySlices(RECORD_MAGIC, ToLE(key.chunkSize, 4), ToLE(v.count, 8), ToLE(key.fileSize, 8), key.rootHash, v.bits);
    FrontSlices(body, H(body));
    WindowStandsAt(b, 8, 4, key.chunkSize);
    WindowStandsAt(b, 12, 8, v.count);
    WindowStandsAt(b, 20, 8, key.fileSize);
  }

  lemma FrontSlices(body: seq<byte>, sum: seq<byte>)
    requires |body| >= 60
    ensures
      var b := body + sum;
      && b[0..8] == body[0..8] && b[8..12] == body[8..12] && b[12..20] == body[12..20] && b[20..28] == body[20..28]
      && b[28..60] == body[28..60] && b[60..|body|] == body[60..] && b[..|body|] == body && b[|body|..] == sum
  {
  }

  /** `load`: every failure is `None`. `raw` is the sidecar's content and `stagingLen` the length
      of the staging file, each absent if it cannot be read. */
  function Load(H: Hasher, raw: Option<seq<byte>>, stagingLen: Option<nat>, key: StateKey): Option<Bitmap>
  {
    if raw.None? then None
    else if |raw.value| < RECORD_HEADER_LEN + HASH_LEN then None
    else
      var split := |raw.value| - HASH_LEN;
      if H(raw.value[..split]) != raw.value[split..] then None
      else LoadBody(raw.value[..split], stagingLen, key)
  }

  function LoadBody(body: seq<byte>, stagingLen: Option<nat>, key: StateKey): Option<Bitmap>
    requires |body| >= RECORD_HEADER_LEN
  {
    if body[0..8] != RECORD_MAGIC then None
    else if FromLE(body[8..12]) != key.chunkSize || FromLE(body[20..28]) != key.fileSize || body[28..60] != key.rootHash
    then None
    else if stagingLen != Some(key.fileSize) then None
    else
      CountFits(body[12..20]);
      match FromBytes(body[60..], FromLE(body[12..20]))
      case Err(_) => None
      case Ok(v) => Some(v)
  }

  lemma CountFits(s: seq<byte>)
    requires |s| == 8
    ensures FromLE(s) <= U64_MAX
  {
    ToLEFromLE(s);
    Pow256Values();
  }

  lemma BodySlices(a: seq<byte>, b: seq<byte>, c: seq<byte>, d: seq<byte>, e: seq<byte>, f: seq<byte>)
    requires |a| == 8 && |b| == 4 && |c| == 8 && |d| == 8 && |e| == 32
    ensures
      var s := a + b + c + d + e + f;
      && |s| >= RECORD_HEADER_LEN
      && s[0..8] == a && s[8..12] == b && s[12..20] == c && s[20..28] == d && s[28..60] == e && s[60..] == f
  {
  }

  lemma BodyJoins(s: seq<byte>)
    requires |s| >= RECORD_HEADER_LEN
    ensures s == s[0..8] + s[8..12] + s[12..20] + s[20..28] + s[28..60] + s[60..]
  {
  }

  lemma LoadBodyOfBody(key: StateKey, v: Bitmap, stagingLen: Option<nat>, key': StateKey)
    requires key.Valid() && v.Valid()
    ensures |Body(key, v)| >= RECORD_HEADER_LEN
    ensures LoadBody(Body(key, v), stagingLen, key') ==
            if key == key' && stagingLen == Some(key.fileSize) then Some(v) else None
  {
    hide ToLE, FromLE, FromBytes, Bitmap.Valid;
    Pow256Values();
    BodySlices(RECORD_MAGIC, ToLE(key.chunkSize, 4), ToLE(v.count, 8), ToLE(key.fileSize, 8), key.rootHash, v.bits);
    FromLEToLE(key.chunkSize, 4);
    FromLEToLE(v.count, 8);
    FromLEToLE(key.fileSize, 8);
    FromBytesInvertsAsBytes(v);
  }

  lemma LoadBodyInverts(body: seq<byte>, stagingLen: Option<nat>, key: StateKey)
    requires |body| >= RECORD_HEADER_LEN && LoadBody(body, stagingLen, key).Some?
    ensures
      var v := LoadBody(body, stagingLen, key).value;
      v.Valid() && body == Body(key, v) && stagingLen == Some(key.fileSize)
  {
    hide ToLE, FromLE, FromBytes, Bitmap.Valid;
    CountFits(body[12..20]);
    FromBytesAccepts(body[60..], FromLE(body[12..20]));
    ToLEFromLE(body[8..12]);
    ToLEFromLE(body[12..20]);
    ToLEFromLE(body[20..28]);
    BodyJoins(body);
  }

  lemma SplitChecksum(body: seq<byte>, sum: seq<byte>)
    ensures (body + sum)[..|body + sum| - |sum|] == body
    ensures (body + sum)[|body + sum| - |sum|..] == sum
  {
  }

  /** `load` accepts exactly the records `persist` writes for this key, on a staging file of the
      recorded length, and returns exactly the bitmap that was persisted. */
  lemma LoadAcceptsExactly(H: Hasher, raw: seq<byte>, stagingLen: Option<nat>, key: StateKey, v: Bitmap)
    requires Digests(H) && key.Valid()
    ensures Load(H, Some(raw), stagingLen, key) == Some(v) <==>
            v.Valid() && raw == EncodeRecord(H, key, v) && stagingLen == Some(key.fileSize)
  {
    hide Body, LoadBody, Bitmap.Valid;
    if v.Valid() && raw == EncodeRecord(H, key, v) && stagingLen == Some(key.fileSize) {
      LoadBodyOfBody(key, v, stagingLen, key);
      SplitChecksum(Body(key, v), H(Body(key, v)));
    }
    if Load(H, Some(raw), stagingLen, key) == Some(v) {
      var split := |raw| - HASH_LEN;
      LoadBodyInverts(raw[..split], stagingLen, key);
      assert raw == raw[..split] + raw[split..];
    }
  }

  /** A record written under any other key is never used. */
  lemma LoadRefusesOtherKey(H: Hasher, key: StateKey, v: Bitmap, key': StateKey, stagingLen: Option<nat>)
    requires Digests(H) && key.Valid() && v.Valid() && key != key'
    ensures Load(H, Some(EncodeRecord(H, key, v)), stagingLen, key') == None
  {
    hide Body, LoadBody, Bitmap.Valid;
    LoadBodyOfBody(key, v, stagingLen, key');
    SplitChecksum(Body(key, v), H(Body(key, v)));
  }

  /** A record whose body was altered under its old checksum is never used. */
  lemma LoadRefusesDamage(H: Hasher, key: StateKey, v: Bitmap, body: seq<byte>, key': StateKey, stagingLen: Option<nat>)
    requires Digests(H) && key.Valid() && body != Body(key, v) && Separates(H, body, Body(key, v))
    ensures Load(H, Some(body + H(Body(key, v))), stagingLen, key') == None
  {
    hide Body, LoadBody;
    SplitChecksum(body, H(Body(key, v)));
  }

  // ----- the slow path ------------------------------------------------------------------

  /** `read_chunk`: fails if the file is too short to hold the chunk. */
  function ReadChunk(l: ChunkLayout, content: seq<byte>, i: nat): (r: Option<seq<byte>>)
    requires l.Valid() && i < l.count
    ensures r.Some? <==> l.Start(i) + l.Len(i) <= |content|
    ensures r.Some? && |content| == l.fileSize ==> r.value == l.Slice(content, i)
  {
    if l.Start(i) + l.Len(i) <= |content| then Some(Window(content, l.Start(i), l.Len(i))) else None
  }

  /** The chunk on disk is readable and has the committed hash. */
  predicate Matches(H: Hasher, l: ChunkLayout, hashes: seq<Hash>, content: seq<byte>, i: nat)
    requires l.Valid() && |hashes| == l.count && i < l.count
  {
    ReadChunk(l, content, i).Some? && H(ReadChunk(l, content, i).value) == hashes[i]
  }

  /** The bitmap holds exactly the matching chunks below `n`. */
  ghost predicate VerifiedBelow(H: Hasher, l: ChunkLayout, hashes: seq<Hash>, content: seq<byte>, v: Bitmap, n: nat)
    requires l.Valid() && |hashes| == l.count
  {
    && v.Valid() && v.count == l.count
    && forall i: nat :: i in v.Members() <==> i < n && i < l.count && Matches(H, l, hashes, content, i)
  }

  lemma VerifyNext(H: Hasher, l: ChunkLayout, hashes: seq<Hash>, content: seq<byte>, v: Bitmap, n: nat)
    requires l.Valid() && |hashes| == l.count && n < l.count && VerifiedBelow(H, l, hashes, content, v, n)
    ensures v.Valid() && v.count == l.count
    ensures if Matches(H, l, hashes, content, n) then VerifiedBelow(H, l, hashes, content, WithBit(v, n), n + 1)
            else VerifiedBelow(H, l, hashes, content, v, n + 1)
  {
    hide Matches, WithBit, Bitmap.PaddingClear;
    WithBitAddsMember(v, n);
  }

  /** `rebuild_by_verification`: the bits set are exactly the chunks that match, whatever the file holds. */
  method RebuildByVerification(H: Hasher, l: ChunkLayout, hashes: seq<Hash>, content: seq<byte>) returns (v: Bitmap)
    requires l.Valid() && |hashes| == l.count
    ensures VerifiedBelow(H, l, hashes, content, v, l.count)
  {
    hide VerifiedBelow, WithBit, Bitmap.Valid, ReadChunk, Bitmap.Members;
    var bitmap := new ChunkBitmap(l.count);
    NothingVerified(H, l, hashes, content, bitmap.Value());
    for index := 0 to l.count
      invariant VerifiedBelow(H, l, hashes, content, bitmap.Value(), index)
    {
      VerifyNext(H, l, hashes, content, bitmap.Value(), index);
      var bytes := ReadChunk(l, content, index);
      if bytes.Some? && H(bytes.value) == hashes[index] {
        var _ := bitmap.Set(index);
      }
    }
    v := bitmap.Value();
  }

  lemma NothingVerified(H: Hasher, l: ChunkLayout, hashes: seq<Hash>, content: seq<byte>, v: Bitmap)
    requires l.Valid() && |hashes| == l.count && v.Valid() && v.count == l.count && v.Members() == {}
    ensures VerifiedBelow(H, l, hashes, content, v, 0)
  {
  }
}
