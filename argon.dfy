/** src/argon.ts: the proof-of-work search and its verification.

    Argon2id (RFC 9106, with the ledger's salt and parameters) is the
    oracle `argon`; the avsc codec of the record's schema is the oracle
    `codec`. A module-level flag `running` is the state of a Miner. */
module Argon {
  import opened Common
  import Hex

  /** The record schemas that diffTypes can select. */
  datatype Schema = MainBlockSchema | BlobHashSchema | MessageSchema | PaddingSchema

  /** diffTypes[type]. As written the table has a fourth key PADDING, which
      is not a DifficultyType, and no entry for PADDING_BIG or PADDING_SMALL;
      the intended table maps both padding categories to the Padding
      schema. */
  function DiffTypes(reading: Reading, t: DifficultyType): (r: Option<Schema>)
    ensures t == MAIN ==> r == Some(MainBlockSchema)
    ensures t == SIDE ==> r == Some(BlobHashSchema)
    ensures t == TRANSACTION ==> r == Some(MessageSchema)
    ensures (t == PADDING_BIG || t == PADDING_SMALL) ==>
              r == (if reading == AsWritten then None else Some(PaddingSchema))
  {
    match t
    case MAIN => Some(MainBlockSchema)
    case SIDE => Some(BlobHashSchema)
    case TRANSACTION => Some(MessageSchema)
    case _ => if reading == AsWritten then None else Some(PaddingSchema)
  }

  /** The avsc type of the selected schema: fromBuffer and toBuffer (None
      when they throw), and the assignment to the record's difficulty
      field. */
  datatype Codec<!R> = Codec(fromBuffer: Bytes -> Option<R>, toBuffer: R -> Option<Bytes>, withDifficulty: (R, Bytes) -> R)

  datatype ArgonError =
    | NoSchema(t: DifficultyType)   // diffTypes[type] is undefined: TypeError
    | DecodeFailed                  // fromBuffer throws
    | EncodeFailed                  // toBuffer throws: a field of the wrong size
    | DigestNotHex(digest: Bytes)   // BigInt(`0x${hashValue}`) throws a SyntaxError

  /** BigInt(`0x${hashValue}`). As written the Buffer is interpolated as
      UTF-8 text, so the digest is read as hexadecimal characters; the
      intended reading is the digest's big-endian value. */
  function DigestValue(reading: Reading, digest: Bytes): (r: Option<nat>)
    ensures reading == Intended ==> r == Some(Hex.BytesValue(digest))
    ensures reading == AsWritten ==> r == Hex.TextHexValue(digest)
  {
    if reading == AsWritten then Hex.TextHexValue(digest) else Some(Hex.BytesValue(digest))
  }

  /** One iteration of the loop for nonce n: overwrite the difficulty field,
      re-encode, hash, and compare with the difficulty. */
  function Attempt<R>(reading: Reading, codec: Codec<R>, argon: Bytes -> Bytes,
                      block: R, n: int, difficulty: int): Result<Option<R>, ArgonError>
  {
    var candidate := codec.withDifficulty(block, Hex.HexBuffer(n));
    match codec.toBuffer(candidate)
    case None => Err(EncodeFailed)
    case Some(encoded) =>
      var digest := argon(encoded);
      match DigestValue(reading, digest)
      case None => Err(DigestNotHex(digest))
      case Some(v) => Ok(if v < difficulty then Some(candidate) else None)
  }

  /** The search of hashArgon over `attempts` iterations: nonces start + 1,
      start + 2, ... in order, stopping at the first record whose encoding
      hashes below the difficulty. */
  function Search<R>(reading: Reading, codec: Codec<R>, argon: Bytes -> Bytes,
                     block: R, start: int, attempts: nat, difficulty: int): (r: Result<Option<R>, ArgonError>)
    ensures r.Ok? && r.value.Some? ==>
              (exists k :: start < k <= start + attempts && r.value.value == codec.withDifficulty(block, Hex.HexBuffer(k)))
    ensures r.Ok? && r.value.Some? ==> codec.toBuffer(r.value.value).Some?
    ensures r.Ok? && r.value.Some? ==>
              (var v := DigestValue(reading, argon(codec.toBuffer(r.value.value).value)); v.Some? && v.value < difficulty)
    decreases attempts
  {
    if attempts == 0 then Ok(None)
    else match Attempt(reading, codec, argon, block, start + 1, difficulty)
      case Err(e) => Err(e)
      case Ok(Some(c)) => Ok(Some(c))
      case Ok(None) => Search(reading, codec, argon, block, start + 1, attempts - 1, difficulty)
  }

  /** Attempt n finds nothing and throws nothing. */
  predicate Fails<R>(reading: Reading, codec: Codec<R>, argon: Bytes -> Bytes, block: R, n: int, difficulty: int)
  {
    Attempt(reading, codec, argon, block, n, difficulty) == Ok(None)
  }

  /** The search returns what the first attempt that does not fail returns:
      nonces are tried from start + 1 upwards, one at a time. */
  lemma {:induction false} SearchFirst<R>(reading: Reading, codec: Codec<R>, argon: Bytes -> Bytes,
                                           block: R, start: int, attempts: nat, difficulty: int, k: int)
    requires start < k <= start + attempts
    requires forall n :: start < n < k ==> Fails(reading, codec, argon, block, n, difficulty)
    requires !Fails(reading, codec, argon, block, k, difficulty)
    ensures Search(reading, codec, argon, block, start, attempts, difficulty) ==
              Attempt(reading, codec, argon, block, k, difficulty)
    decreases attempts
  {
    if k > start + 1 {
      assert Fails(reading, codec, argon, block, start + 1, difficulty);
      SearchFirst(reading, codec, argon, block, start + 1, attempts - 1, difficulty, k);
    }
  }

  /** When every attempt fails, the search returns nothing. */
  lemma {:induction false} SearchNone<R>(reading: Reading, codec: Codec<R>, argon: Bytes -> Bytes,
                                          block: R, start: int, attempts: nat, difficulty: int)
    requires forall n :: start < n <= start + attempts ==> Fails(reading, codec, argon, block, n, difficulty)
    ensures Search(reading, codec, argon, block, start, attempts, difficulty) == Ok(None)
    decreases attempts
  {
    if attempts > 0 {
      assert Fails(reading, codec, argon, block, start + 1, difficulty);
      SearchNone(reading, codec, argon, block, start + 1, attempts - 1, difficulty);
    }
  }

  /** The record of nonce n can be encoded. */
  predicate Encodes<R>(codec: Codec<R>, block: R, n: int)
  {
    codec.toBuffer(codec.withDifficulty(block, Hex.HexBuffer(n))).Some?
  }

  /** Under the intended reading of the digest, the search never throws
      while every nonce it tries leaves a record that can be encoded. */
  lemma {:induction false} IntendedSearchTotal<R>(codec: Codec<R>, argon: Bytes -> Bytes,
                                                   block: R, start: int, attempts: nat, difficulty: int)
    requires forall n :: start < n <= start + attempts ==> Encodes(codec, block, n)
    ensures Search(Intended, codec, argon, block, start, attempts, difficulty).Ok?
    decreases attempts
  {
    assert attempts > 0 ==> Encodes(codec, block, start + 1);
    if attempts > 0 {
      IntendedSearchTotal(codec, argon, block, start + 1, attempts - 1, difficulty);
    }
  }

  lemma SearchStep<R>(reading: Reading, codec: Codec<R>, argon: Bytes -> Bytes,
                      block: R, start: int, attempts: nat, difficulty: int)
    requires attempts > 0
    ensures var c := codec.withDifficulty(block, Hex.HexBuffer(start + 1));
            Search(reading, codec, argon, block, start, attempts, difficulty) ==
              if codec.toBuffer(c).None? then Err(EncodeFailed)
              else
                var v := DigestValue(reading, argon(codec.toBuffer(c).value));
                if v.None? then Err(DigestNotHex(argon(codec.toBuffer(c).value)))
                else if v.value < difficulty then Ok(Some(c))
                else Search(reading, codec, argon, block, start + 1, attempts - 1, difficulty)
  {
  }

  /** The flag of argon.ts. */
  class Miner {
    var running: bool

    constructor ()
      ensures !running
    {
      running := false;
    }

    /** stopArgon. */
    method StopArgon()
      modifies this
      ensures !running
    {
      running := false;
    }

    /** hashArgon. `running` is set on entry, so an earlier stop has no
        effect. The environment calls stopArgon while attempt number
        stopAfter + 1 awaits its hash; that attempt's result is still
        examined, and then the loop test finds the flag cleared. */
    method HashArgon<R>(reading: Reading, t: DifficultyType, codec: Codec<R>, argon: Bytes -> Bytes,
                        transaction: Bytes, start: int, difficulty: int, stopAfter: nat)
      returns (r: Result<Option<R>, ArgonError>)
      modifies this
      ensures DiffTypes(reading, t).None? ==> r == Err(NoSchema(t)) && running
      ensures DiffTypes(reading, t).Some? && codec.fromBuffer(transaction).None? ==> r == Err(DecodeFailed) && running
      ensures DiffTypes(reading, t).Some? && codec.fromBuffer(transaction).Some? ==>
                r == Search(reading, codec, argon, codec.fromBuffer(transaction).value, start, stopAfter + 1, difficulty)
      ensures r == Ok(None) ==> !running
    {
      running := true;
      if DiffTypes(reading, t).None? {
        return Err(NoSchema(t));
      }
      var decoded := codec.fromBuffer(transaction);
      if decoded.None? {
        return Err(DecodeFailed);
      }
      r := Mine(reading, codec, argon, decoded.value, start, difficulty, stopAfter);
    }

    /** The loop of hashArgon, with `running` already set. */
    method Mine<R>(reading: Reading, codec: Codec<R>, argon: Bytes -> Bytes,
                   block: R, start: int, difficulty: int, stopAfter: nat)
      returns (r: Result<Option<R>, ArgonError>)
      modifies this
      requires running
      ensures r == Search(reading, codec, argon, block, start, stopAfter + 1, difficulty)
      ensures r == Ok(None) ==> !running
    {
      var n := start;
      var count := 0;
      ghost var total := Search(reading, codec, argon, block, start, stopAfter + 1, difficulty);
      while running
        invariant 0 <= count <= stopAfter + 1
        invariant running <==> count <= stopAfter
        invariant n == start + count
        invariant total == Search(reading, codec, argon, block, n, stopAfter + 1 - count, difficulty)
        decreases stopAfter + 1 - count
      {
        SearchStep(reading, codec, argon, block, n, stopAfter + 1 - count, difficulty);
        ghost var next := Search(reading, codec, argon, block, n + 1, stopAfter - count, difficulty);
        n := n + 1;
        count := count + 1;
        if count == stopAfter + 1 {
          running := false;
        }
        var candidate := codec.withDifficulty(block, Hex.HexBuffer(n));
        var encoded := codec.toBuffer(candidate);
        if encoded.None? {
          return Err(EncodeFailed);
        }
        var digest := argon(encoded.value);
        var value := DigestValue(reading, digest);
        if value.None? {
          return Err(DigestNotHex(digest));
        }
        if value.value < difficulty {
          return Ok(Some(candidate));
        }
      }
      return Ok(None);
    }
  }

  /** verifyArgon: decodes the input, hashes the input bytes as given (not a
      re-encoding of the decoded record) and compares with the difficulty. */
  function VerifyArgon<R>(reading: Reading, t: DifficultyType, codec: Codec<R>, argon: Bytes -> Bytes,
                          transaction: Bytes, difficulty: int): (r: Result<(bool, R), ArgonError>)
    ensures r.Ok? <==> DiffTypes(reading, t).Some? && codec.fromBuffer(transaction).Some?
                       && DigestValue(reading, argon(transaction)).Some?
    ensures r.Ok? ==> r.value.1 == codec.fromBuffer(transaction).value
    ensures r.Ok? ==> (r.value.0 <==> DigestValue(reading, argon(transaction)).value < difficulty)
  {
    if DiffTypes(reading, t).None? then Err(NoSchema(t))
    else match codec.fromBuffer(transaction)
      case None => Err(DecodeFailed)
      case Some(block) =>
        match DigestValue(reading, argon(transaction))
        case None => Err(DigestNotHex(argon(transaction)))
        case Some(v) => Ok((v < difficulty, block))
  }

  /** As written, a padding category has no schema, so both hashArgon and
      verifyArgon throw for it. */
  lemma PaddingHasNoSchema<R>(t: DifficultyType, codec: Codec<R>, argon: Bytes -> Bytes, transaction: Bytes, difficulty: int)
    requires t == PADDING_BIG || t == PADDING_SMALL
    ensures DiffTypes(AsWritten, t) == None
    ensures VerifyArgon(AsWritten, t, codec, argon, transaction, difficulty) == Err(NoSchema(t))
    ensures DiffTypes(Intended, t) == Some(PaddingSchema)
  {
  }

  /** As written, the digest is read as text: an all-zero digest, the best
      possible, throws, and a digest of 32 "0" characters (0x30 bytes) counts
      as 0 and passes any positive difficulty although its value is far above
      it. */
  lemma DigestReadAsText()
    ensures DigestValue(AsWritten, seq(32, _ => 0)) == None
    ensures DigestValue(Intended, seq(32, _ => 0)) == Some(0)
    ensures DigestValue(AsWritten, seq(32, _ => 0x30)) == Some(0)
    ensures DigestValue(Intended, seq(32, _ => 0x30)).value >= 0x30
  {
    var zeros: Bytes := seq(32, _ => 0);
    var chars: Bytes := seq(32, _ => 0x30);
    assert Hex.AsciiHexDigit(zeros[0]) == None;
    AllZeroValue(zeros);
    Hex.TextHexValueOf(chars, []);
    assert chars + [] == chars;
    DigitsValueZero(Hex.AsciiDigits(chars));
    assert Hex.BytesValue(chars) >= chars[31];
  }

  lemma {:induction false} AllZeroValue(bs: Bytes)
    requires forall i :: 0 <= i < |bs| ==> bs[i] == 0
    ensures Hex.BytesValue(bs) == 0
  {
    if bs != [] {
      AllZeroValue(bs[..|bs| - 1]);
    }
  }

  lemma {:induction false} DigitsValueZero(ds: seq<Hex.digit>)
    requires forall i :: 0 <= i < |ds| ==> ds[i] == 0
    ensures Hex.DigitsValue(ds) == 0
  {
    if ds != [] {
      DigitsValueZero(ds[..|ds| - 1]);
    }
  }
}
