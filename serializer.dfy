/** src/serializer.ts: the custom 64-bit long type and the record layouts of
    the ledger, encoded as the Binary Encoding section of the Apache Avro 1.11
    specification prescribes (records field by field in declared order, fixed
    values as raw bytes, bytes as a length and the raw bytes, arrays in
    counted blocks ended by a zero count, longs as zig-zag variable-length
    integers). */
module Serializer {
  import opened Common
  import Merkle

  const ADDRESS_SIZE: nat := 20
  const HASH_SIZE: nat := 32
  const DIFFICULTY_SIZE: nat := 8

  const TWO_63: nat := 0x8000_0000_0000_0000
  const TWO_64: nat := 0x1_0000_0000_0000_0000

  // ---------------------------------------------------------------------
  // longType: bigint <-> 8-byte little-endian two's complement

  predicate InLongRange(n: int)
  {
    -(TWO_63 as int) <= n < TWO_63
  }

  /** The `width` low bytes of v, least significant first. */
  function LittleEndian(v: nat, width: nat): (bs: Bytes)
    ensures |bs| == width
  {
    if width == 0 then [] else [v % 256] + LittleEndian(v / 256, width - 1)
  }

  function LittleEndianValue(bs: Bytes): nat
  {
    if bs == [] then 0 else bs[0] + 256 * LittleEndianValue(bs[1..])
  }

  function Pow256(n: nat): (r: nat)
    ensures r >= 1
  {
    if n == 0 then 1 else 256 * Pow256(n - 1)
  }

  datatype LongError = OutOfRange(n: int) | ShortBuffer(length: nat)

  /** toBuffer: Buffer.alloc(8) then writeBigInt64LE(n), which throws a
      RangeError outside [-2^63, 2^63). */
  function LongToBuffer(n: int): (r: Result<Bytes, LongError>)
    ensures r.Ok? <==> InLongRange(n)
    ensures r.Ok? ==> |r.value| == 8
  {
    if !InLongRange(n) then Err(OutOfRange(n))
    else Ok(LittleEndian(if n >= 0 then n else n + TWO_64, 8))
  }

  /** fromBuffer: readBigInt64LE at offset 0, which throws on fewer than 8
      bytes and ignores the bytes after the eighth. */
  function LongFromBuffer(buf: Bytes): (r: Result<int, LongError>)
    ensures r.Ok? <==> |buf| >= 8
    ensures r.Ok? ==> InLongRange(r.value)
  {
    if |buf| < 8 then Err(ShortBuffer(|buf|))
    else
      assert Pow256(8) == TWO_64;
      var u := LittleEndianValue(buf[..8]);
      LittleEndianBound(buf[..8]);
      Ok(if u >= TWO_63 then u - TWO_64 else u)
  }

  lemma {:induction false} LittleEndianBound(bs: Bytes)
    ensures LittleEndianValue(bs) < Pow256(|bs|)
  {
    if bs != [] {
      LittleEndianBound(bs[1..]);
    }
  }

  lemma {:induction false} LittleEndianValueOf(v: nat, width: nat)
    requires v < Pow256(width)
    ensures LittleEndianValue(LittleEndian(v, width)) == v
  {
    if width > 0 {
      LittleEndianValueOf(v / 256, width - 1);
      assert LittleEndian(v, width)[1..] == LittleEndian(v / 256, width - 1);
    }
  }

  lemma {:induction false} LittleEndianOfValue(bs: Bytes)
    ensures LittleEndian(LittleEndianValue(bs), |bs|) == bs
  {
    if bs != [] {
      LittleEndianOfValue(bs[1..]);
    }
  }

  /** Every number of the long range survives toBuffer then fromBuffer. */
  lemma LongRoundTrip(n: int)
    requires InLongRange(n)
    ensures LongToBuffer(n).Ok?
    ensures LongFromBuffer(LongToBuffer(n).value) == Ok(n)
  {
    assert Pow256(8) == TWO_64;
    var u: nat := if n >= 0 then n else n + TWO_64;
    LittleEndianValueOf(u, 8);
    assert LongToBuffer(n).value[..8] == LongToBuffer(n).value;
  }

  /** Conversely every 8-byte buffer is the encoding of the number it is
      read as: the two conversions are mutually inverse. */
  lemma BufferRoundTrip(buf: Bytes)
    requires |buf| == 8
    ensures LongFromBuffer(buf).Ok?
    ensures LongToBuffer(LongFromBuffer(buf).value) == Ok(buf)
  {
    assert Pow256(8) == TWO_64;
    assert buf[..8] == buf;
    LittleEndianBound(buf);
    LittleEndianOfValue(buf);
  }

  /** compare(n1, n2) = n1 - n2: its sign orders the two numbers. */
  function LongCompare(n1: int, n2: int): (r: int)
    ensures r < 0 <==> n1 < n2
    ensures r == 0 <==> n1 == n2
    ensures r > 0 <==> n1 > n2
  {
    n1 - n2
  }

  /** A JavaScript value as far as isValid can tell them apart. */
  datatype JsValue = JsBigInt(i: int) | JsNumber | JsString(s: string) | JsUndefined | JsObject

  /** isValid: typeof n == "bigint". */
  function LongIsValid(v: JsValue): (r: bool)
    ensures r <==> exists i :: v == JsBigInt(i)
  {
    v.JsBigInt?
  }

  // ---------------------------------------------------------------------
  // Avro primitives

  function ZigZag(n: int): nat
  {
    if n >= 0 then 2 * n else -2 * n - 1
  }

  function UnZigZag(v: nat): int
  {
    if v % 2 == 0 then v / 2 else -((v + 1) / 2)
  }

  lemma ZigZagRoundTrip(n: int)
    ensures UnZigZag(ZigZag(n)) == n
  {
  }

  /** Variable-length unsigned integer: seven bits per byte, low group first,
      the high bit set on every byte but the last. */
  function Varint(v: nat): (bs: Bytes)
    ensures |bs| >= 1
  {
    if v < 128 then [v] else [v % 128 + 128] + Varint(v / 128)
  }

  function ReadVarint(bs: Bytes): (r: Option<(nat, Bytes)>)
    ensures r.Some? ==> |r.value.1| < |bs|
  {
    if bs == [] then None
    else if bs[0] < 128 then Some((bs[0], bs[1..]))
    else match ReadVarint(bs[1..])
      case Some((v, rest)) => Some((bs[0] - 128 + 128 * v, rest))
      case None => None
  }

  lemma {:induction false} VarintRoundTrip(v: nat, rest: Bytes)
    ensures ReadVarint(Varint(v) + rest) == Some((v, rest))
  {
    if v >= 128 {
      VarintRoundTrip(v / 128, rest);
      assert (Varint(v) + rest)[1..] == Varint(v / 128) + rest;
    }
  }

  /** A long field: the value's 8-byte buffer written as zig-zag varint
      (avsc's packLongBytes). */
  function EncodeLong(n: int): Bytes
  {
    Varint(ZigZag(n))
  }

  function DecodeLong(bs: Bytes): (r: Option<(int, Bytes)>)
    ensures r.Some? ==> InLongRange(r.value.0)
    ensures r.Some? ==> |r.value.1| < |bs|
  {
    match ReadVarint(bs)
    case Some((v, rest)) => if InLongRange(UnZigZag(v)) then Some((UnZigZag(v), rest)) else None
    case None => None
  }

  lemma LongFieldRoundTrip(n: int, rest: Bytes)
    requires InLongRange(n)
    ensures DecodeLong(EncodeLong(n) + rest) == Some((n, rest))
  {
    VarintRoundTrip(ZigZag(n), rest);
  }

  /** A fixed field of `size` bytes: the raw bytes. */
  function DecodeFixed(size: nat, bs: Bytes): (r: Option<(Bytes, Bytes)>)
    ensures r.Some? ==> |r.value.0| == size && bs == r.value.0 + r.value.1
  {
    if |bs| < size then None else Some((bs[..size], bs[size..]))
  }

  lemma FixedRoundTrip(b: Bytes, rest: Bytes)
    ensures DecodeFixed(|b|, b + rest) == Some((b, rest))
  {
    assert (b + rest)[..|b|] == b && (b + rest)[|b|..] == rest;
  }

  /** A bytes field: its length as a long, then the raw bytes. */
  function EncodeBytes(b: Bytes): Bytes
    requires InLongRange(|b|)
  {
    EncodeLong(|b|) + b
  }

  function DecodeBytes(bs: Bytes): (r: Option<(Bytes, Bytes)>)
    ensures r.Some? ==> |r.value.1| < |bs|
  {
    match DecodeLong(bs)
    case None => None
    case Some((n, rest)) =>
      if n < 0 then None
      else match DecodeFixed(n, rest)
        case Some((b, rest2)) => Some((b, rest2))
        case None => None
  }

  lemma BytesRoundTrip(b: Bytes, rest: Bytes)
    requires InLongRange(|b|)
    ensures DecodeBytes(EncodeBytes(b) + rest) == Some((b, rest))
  {
    LongFieldRoundTrip(|b|, b + rest);
    assert EncodeBytes(b) + rest == EncodeLong(|b|) + (b + rest);
    FixedRoundTrip(b, rest);
  }

  // ---------------------------------------------------------------------
  // Records

  /** Padding: index (long), difficulty (fixed 8), hash (fixed 32). */
  datatype Padding = Padding(index: int, difficulty: Bytes, hash: Bytes)

  /** BlobHash: type (fixed 32), merkle (fixed 32), author (fixed 20),
      difficulty (fixed 8), bloom (bytes). */
  datatype BlobHash = BlobHash(blobType: Bytes, merkle: Bytes, author: Bytes, difficulty: Bytes, bloom: Bytes)

  /** MainBlock: id, timestamp (longs), prevHash (fixed 32), author
      (fixed 20), blobs (array of BlobHash), difficulty (fixed 8), padding
      (one Padding record), limit (fixed 32). */
  datatype MainBlock = MainBlock(
    id: int, timestamp: int, prevHash: Bytes, author: Bytes,
    blobs: seq<BlobHash>, difficulty: Bytes, padding: Padding, limit: Bytes)

  /** Values that avsc's isValid accepts for each schema. */
  predicate ValidPadding(p: Padding)
  {
    InLongRange(p.index) && |p.difficulty| == DIFFICULTY_SIZE && |p.hash| == HASH_SIZE
  }

  predicate ValidBlobHash(b: BlobHash)
  {
    && |b.blobType| == HASH_SIZE && |b.merkle| == HASH_SIZE && |b.author| == ADDRESS_SIZE
    && |b.difficulty| == DIFFICULTY_SIZE && InLongRange(|b.bloom|)
  }

  predicate ValidMainBlock(m: MainBlock)
  {
    && InLongRange(m.id) && InLongRange(m.timestamp)
    && |m.prevHash| == HASH_SIZE && |m.author| == ADDRESS_SIZE
    && InLongRange(|m.blobs|) && (forall i :: 0 <= i < |m.blobs| ==> ValidBlobHash(m.blobs[i]))
    && |m.difficulty| == DIFFICULTY_SIZE && ValidPadding(m.padding) && |m.limit| == HASH_SIZE
  }

  function EncodePadding(p: Padding): Bytes
    requires ValidPadding(p)
  {
    EncodeLong(p.index) + p.difficulty + p.hash
  }

  function DecodePadding(bs: Bytes): (r: Option<(Padding, Bytes)>)
    ensures r.Some? ==> ValidPadding(r.value.0)
    ensures r.Some? ==> |r.value.1| < |bs|
  {
    match DecodeLong(bs)
    case None => None
    case Some((index, r1)) =>
      match DecodeFixed(DIFFICULTY_SIZE, r1)
      case None => None
      case Some((difficulty, r2)) =>
        match DecodeFixed(HASH_SIZE, r2)
        case None => None
        case Some((hash, r3)) => Some((Padding(index, difficulty, hash), r3))
  }

  lemma PaddingRoundTrip(p: Padding, rest: Bytes)
    requires ValidPadding(p)
    ensures DecodePadding(EncodePadding(p) + rest) == Some((p, rest))
  {
    assert EncodePadding(p) + rest == EncodeLong(p.index) + (p.difficulty + (p.hash + rest));
    LongFieldRoundTrip(p.index, p.difficulty + (p.hash + rest));
    FixedRoundTrip(p.difficulty, p.hash + rest);
    FixedRoundTrip(p.hash, rest);
  }

  /** The declared field order fixes where each field sits: after the index
      come the 8 difficulty bytes, and the record ends with the 32-byte
      hash. */
  lemma PaddingLayout(p: Padding)
    requires ValidPadding(p)
    ensures var e := EncodePadding(p);
            var k := |EncodeLong(p.index)|;
            && |e| == k + DIFFICULTY_SIZE + HASH_SIZE
            && e[k..k + DIFFICULTY_SIZE] == p.difficulty
            && e[k + DIFFICULTY_SIZE..] == p.hash
  {
  }

  function EncodeBlobHash(b: BlobHash): Bytes
    requires ValidBlobHash(b)
  {
    b.blobType + b.merkle + b.author + b.difficulty + EncodeBytes(b.bloom)
  }

  function DecodeBlobHash(bs: Bytes): (r: Option<(BlobHash, Bytes)>)
    ensures r.Some? ==> ValidBlobHash(r.value.0)
    ensures r.Some? ==> |r.value.1| < |bs|
  {
    match DecodeFixed(HASH_SIZE, bs)
    case None => None
    case Some((blobType, r1)) =>
      match DecodeFixed(HASH_SIZE, r1)
      case None => None
      case Some((merkle, r2)) =>
        match DecodeFixed(ADDRESS_SIZE, r2)
        case None => None
        case Some((author, r3)) =>
          match DecodeFixed(DIFFICULTY_SIZE, r3)
          case None => None
          case Some((difficulty, r4)) =>
            match DecodeBytes(r4)
            case None => None
            case Some((bloom, r5)) =>
              if InLongRange(|bloom|) then Some((BlobHash(blobType, merkle, author, difficulty, bloom), r5))
              else None
  }

  lemma BlobHashRoundTrip(b: BlobHash, rest: Bytes)
    requires ValidBlobHash(b)
    ensures DecodeBlobHash(EncodeBlobHash(b) + rest) == Some((b, rest))
  {
    var tail := EncodeBytes(b.bloom) + rest;
    assert EncodeBlobHash(b) + rest == b.blobType + (b.merkle + (b.author + (b.difficulty + tail)));
    FixedRoundTrip(b.blobType, b.merkle + (b.author + (b.difficulty + tail)));
    FixedRoundTrip(b.merkle, b.author + (b.difficulty + tail));
    FixedRoundTrip(b.author, b.difficulty + tail);
    FixedRoundTrip(b.difficulty, tail);
    BytesRoundTrip(b.bloom, rest);
  }

  /** The items of an array, in order. */
  function EncodeBlobItems(bs: seq<BlobHash>): Bytes
    requires forall i :: 0 <= i < |bs| ==> ValidBlobHash(bs[i])
  {
    if bs == [] then [] else EncodeBlobHash(bs[0]) + EncodeBlobItems(bs[1..])
  }

  /** An array as avsc writes it: one block holding every item, then the
      zero count; an empty array is the zero count alone. */
  function EncodeBlobs(bs: seq<BlobHash>): Bytes
    requires InLongRange(|bs|) && forall i :: 0 <= i < |bs| ==> ValidBlobHash(bs[i])
  {
    if bs == [] then EncodeLong(0) else EncodeLong(|bs|) + EncodeBlobItems(bs) + EncodeLong(0)
  }

  function DecodeBlobItems(count: nat, bs: Bytes): (r: Option<(seq<BlobHash>, Bytes)>)
    ensures r.Some? ==> |r.value.0| == count && forall i :: 0 <= i < count ==> ValidBlobHash(r.value.0[i])
    ensures r.Some? ==> |r.value.1| <= |bs|
  {
    if count == 0 then Some(([], bs))
    else match DecodeBlobHash(bs)
      case None => None
      case Some((b, r1)) =>
        match DecodeBlobItems(count - 1, r1)
        case None => None
        case Some((more, r2)) => Some(([b] + more, r2))
  }

  /** Reading an array: blocks until a zero count. A negative count -c
      announces c items preceded by the block's size in bytes. */
  function DecodeBlobs(bs: Bytes): (r: Option<(seq<BlobHash>, Bytes)>)
    ensures r.Some? ==> forall i :: 0 <= i < |r.value.0| ==> ValidBlobHash(r.value.0[i])
    ensures r.Some? ==> |r.value.1| < |bs|
    decreases |bs|
  {
    match DecodeLong(bs)
    case None => None
    case Some((count, r1)) =>
      if count == 0 then Some(([], r1))
      else
        var r2 := if count > 0 then Some(r1) else match DecodeLong(r1) case Some((_, r)) => Some(r) case None => None;
        match r2
        case None => None
        case Some(r2) =>
          match DecodeBlobItems(if count > 0 then count else -count, r2)
          case None => None
          case Some((items, r3)) =>
            match DecodeBlobs(r3)
            case None => None
            case Some((more, r4)) => Some((items + more, r4))
  }

  lemma {:induction false} BlobItemsRoundTrip(bs: seq<BlobHash>, rest: Bytes)
    requires forall i :: 0 <= i < |bs| ==> ValidBlobHash(bs[i])
    ensures DecodeBlobItems(|bs|, EncodeBlobItems(bs) + rest) == Some((bs, rest))
  {
    if bs != [] {
      var tail := EncodeBlobItems(bs[1..]) + rest;
      assert EncodeBlobItems(bs) + rest == EncodeBlobHash(bs[0]) + tail;
      BlobHashRoundTrip(bs[0], tail);
      BlobItemsRoundTrip(bs[1..], rest);
      assert DecodeBlobHash(EncodeBlobItems(bs) + rest) == Some((bs[0], tail));
      assert DecodeBlobItems(|bs| - 1, tail) == Some((bs[1..], rest));
      assert [bs[0]] + bs[1..] == bs;
    } else {
      assert EncodeBlobItems(bs) + rest == rest;
    }
  }

  lemma BlobsRoundTrip(bs: seq<BlobHash>, rest: Bytes)
    requires InLongRange(|bs|) && forall i :: 0 <= i < |bs| ==> ValidBlobHash(bs[i])
    ensures DecodeBlobs(EncodeBlobs(bs) + rest) == Some((bs, rest))
  {
    if bs == [] {
      LongFieldRoundTrip(0, rest);
    } else {
      var tail := EncodeLong(0) + rest;
      assert EncodeBlobs(bs) + rest == EncodeLong(|bs|) + (EncodeBlobItems(bs) + tail);
      LongFieldRoundTrip(|bs|, EncodeBlobItems(bs) + tail);
      BlobItemsRoundTrip(bs, tail);
      LongFieldRoundTrip(0, rest);
      assert bs + [] == bs;
    }
  }

  function EncodeMainBlock(m: MainBlock): Bytes
    requires ValidMainBlock(m)
  {
    EncodeMainBlockHead(m) + EncodeMainBlockBody(m)
  }

  /** id, timestamp, prevHash and author. */
  function EncodeMainBlockHead(m: MainBlock): Bytes
    requires ValidMainBlock(m)
  {
    EncodeLong(m.id) + EncodeLong(m.timestamp) + m.prevHash + m.author
  }

  /** blobs, difficulty, padding and limit. */
  function EncodeMainBlockBody(m: MainBlock): Bytes
    requires ValidMainBlock(m)
  {
    EncodeBlobs(m.blobs) + m.difficulty + EncodePadding(m.padding) + m.limit
  }

  function DecodeMainBlock(bs: Bytes): (r: Option<(MainBlock, Bytes)>)
    ensures r.Some? ==> ValidMainBlock(r.value.0)
  {
    match DecodeLong(bs)
    case None => None
    case Some((id, r1)) =>
      match DecodeLong(r1)
      case None => None
      case Some((timestamp, r2)) =>
        match DecodeFixed(HASH_SIZE, r2)
        case None => None
        case Some((prevHash, r3)) =>
          match DecodeFixed(ADDRESS_SIZE, r3)
          case None => None
          case Some((author, r4)) => DecodeMainBlockBody(id, timestamp, prevHash, author, r4)
  }

  /** The fields of a MainBlock after its author. */
  function DecodeMainBlockBody(id: int, timestamp: int, prevHash: Bytes, author: Bytes, bs: Bytes): (r: Option<(MainBlock, Bytes)>)
    requires InLongRange(id) && InLongRange(timestamp) && |prevHash| == HASH_SIZE && |author| == ADDRESS_SIZE
    ensures r.Some? ==> ValidMainBlock(r.value.0)
  {
    match DecodeBlobs(bs)
    case None => None
    case Some((blobs, r5)) =>
      if !InLongRange(|blobs|) then None
      else match DecodeFixed(DIFFICULTY_SIZE, r5)
        case None => None
        case Some((difficulty, r6)) =>
          match DecodePadding(r6)
          case None => None
          case Some((padding, r7)) =>
            match DecodeFixed(HASH_SIZE, r7)
            case None => None
            case Some((limit, r8)) =>
              Some((MainBlock(id, timestamp, prevHash, author, blobs, difficulty, padding, limit), r8))
  }

  lemma MainBlockRoundTrip(m: MainBlock, rest: Bytes)
    requires ValidMainBlock(m)
    ensures DecodeMainBlock(EncodeMainBlock(m) + rest) == Some((m, rest))
  {
    var t4 := EncodeMainBlockBody(m) + rest;
    var t3 := m.author + t4;
    var t2 := m.prevHash + t3;
    var t1 := EncodeLong(m.timestamp) + t2;
    calc {
      EncodeMainBlock(m) + rest;
      EncodeMainBlockHead(m) + t4;
      EncodeLong(m.id) + t1;
    }
    LongFieldRoundTrip(m.id, t1);
    LongFieldRoundTrip(m.timestamp, t2);
    FixedRoundTrip(m.prevHash, t3);
    FixedRoundTrip(m.author, t4);
    MainBlockBodyRoundTrip(m, rest);
  }

  lemma MainBlockBodyRoundTrip(m: MainBlock, rest: Bytes)
    requires ValidMainBlock(m)
    ensures DecodeMainBlockBody(m.id, m.timestamp, m.prevHash, m.author, EncodeMainBlockBody(m) + rest) == Some((m, rest))
  {
    var t7 := m.limit + rest;
    var t6 := EncodePadding(m.padding) + t7;
    var t5 := m.difficulty + t6;
    assert EncodeMainBlockBody(m) + rest == EncodeBlobs(m.blobs) + t5;
    BlobsRoundTrip(m.blobs, t5);
    FixedRoundTrip(m.difficulty, t6);
    PaddingRoundTrip(m.padding, t7);
    FixedRoundTrip(m.limit, rest);
  }

  /** Proof: position (enum left = 0, right = 1), data (fixed 32). */
  predicate ValidProof(p: Merkle.ProofPart)
  {
    |p.data| == HASH_SIZE
  }

  function EncodeProof(p: Merkle.ProofPart): Bytes
    requires ValidProof(p)
  {
    EncodeLong(if p.position == Merkle.Left then 0 else 1) + p.data
  }

  function DecodeProof(bs: Bytes): (r: Option<(Merkle.ProofPart, Bytes)>)
    ensures r.Some? ==> ValidProof(r.value.0)
  {
    match DecodeLong(bs)
    case None => None
    case Some((symbol, r1)) =>
      if symbol != 0 && symbol != 1 then None
      else match DecodeFixed(HASH_SIZE, r1)
        case None => None
        case Some((data, r2)) =>
          Some((Merkle.ProofPart(if symbol == 0 then Merkle.Left else Merkle.Right, data), r2))
  }

  lemma ProofRoundTrip(p: Merkle.ProofPart, rest: Bytes)
    requires ValidProof(p)
    ensures DecodeProof(EncodeProof(p) + rest) == Some((p, rest))
  {
    var symbol := if p.position == Merkle.Left then 0 else 1;
    assert EncodeProof(p) + rest == EncodeLong(symbol) + (p.data + rest);
    LongFieldRoundTrip(symbol, p.data + rest);
    FixedRoundTrip(p.data, rest);
  }

  // ---------------------------------------------------------------------
  // Whole buffers: Type.fromBuffer rejects trailing bytes.

  datatype DecodeError = Invalid | TrailingData

  function MainBlockFromBuffer(bs: Bytes): (r: Result<MainBlock, DecodeError>)
    ensures r.Ok? ==> ValidMainBlock(r.value)
  {
    match DecodeMainBlock(bs)
    case None => Err(Invalid)
    case Some((m, rest)) => if rest == [] then Ok(m) else Err(TrailingData)
  }

  function PaddingFromBuffer(bs: Bytes): (r: Result<Padding, DecodeError>)
    ensures r.Ok? ==> ValidPadding(r.value)
  {
    match DecodePadding(bs)
    case None => Err(Invalid)
    case Some((p, rest)) => if rest == [] then Ok(p) else Err(TrailingData)
  }

  /** toBuffer then fromBuffer gives the block back. */
  lemma MainBlockBufferRoundTrip(m: MainBlock)
    requires ValidMainBlock(m)
    ensures MainBlockFromBuffer(EncodeMainBlock(m)) == Ok(m)
  {
    MainBlockRoundTrip(m, []);
    assert EncodeMainBlock(m) + [] == EncodeMainBlock(m);
  }

  lemma PaddingBufferRoundTrip(p: Padding)
    requires ValidPadding(p)
    ensures PaddingFromBuffer(EncodePadding(p)) == Ok(p)
  {
    PaddingRoundTrip(p, []);
    assert EncodePadding(p) + [] == EncodePadding(p);
  }
}
