/** src/block.ts: validation of main blocks, one at a time, along a chain,
    and in segments; and the fields of a freshly manufactured block.

    A main block is seen through the oracle `codec.fromBuffer`, which
    yields the view the validators work on (the block's id, its prevHash,
    the encodings of its blobs and its padding list). The proof of work of
    a blob (the unexported getArgon) is the oracle `blobPow`; Argon2id is
    the oracle `argon`. */
module Block {
  import opened Common
  import Compare
  import Argon
  import Difficulty
  import Storage
  import Merkle
  import PaddingRecords
  import Serializer

  const NUMBER_OF_BLOBS: int := 10
  const BIG_PADDING_COEFF: int := 5

  /** What the validators read of a decoded main block. */
  datatype BlockView = BlockView(id: int, prevHash: Bytes, blobs: seq<Bytes>, padding: seq<PaddingRecords.PaddingEntry>)

  /** The tuple validateMainDifficulty returns: `[false]`, or
      `[true, block, hash]`, where the hash is None when undefined. */
  datatype MainCheck = Rejected | Accepted(id: int, hash: Option<Bytes>)

  datatype BlockError =
    | DecodeFailed                                  // mainBlockType.fromBuffer throws
    | HashLength(Compare.CompareError)              // compareBuffers throws
    | NoDifficulty(Difficulty.DifficultyError)       // getDifficulty throws
    | ArgonFailed(Argon.ArgonError)                 // verifyArgon throws
    | PaddingFailed(PaddingRecords.PaddingError)    // verifyPadding throws

  /** (NUMBER_OF_BLOBS - blobs) / BIG_PADDING_COEFF, a JavaScript number. */
  function PaddingCount(blobCount: int): (c: real)
    ensures c * BIG_PADDING_COEFF as real == (NUMBER_OF_BLOBS - blobCount) as real
  {
    (NUMBER_OF_BLOBS - blobCount) as real / BIG_PADDING_COEFF as real
  }

  /** Every blob's proof of work passes, from index `from` on. */
  function BlobsPass(blobPow: Bytes -> bool, blobs: seq<Bytes>, from: nat): (b: bool)
    ensures b <==> forall i :: from <= i < |blobs| ==> blobPow(blobs[i])
    decreases |blobs| - from
  {
    from >= |blobs| || (blobPow(blobs[from]) && BlobsPass(blobPow, blobs, from + 1))
  }

  /** validateMainDifficulty, in the order of its checks: the supplied
      prevHash (a Buffer is truthy even when empty), the supplied prevId (0
      is falsy and skips the check), the proof of work of the block, the
      capacity, the padding, the blobs' proofs of work. As written the
      padding result object is truthy whatever it says, and the third name
      destructured from verifyArgon's pair is undefined; the intended
      reading rejects on a failed padding verdict and returns the block's
      digest as its hash. */
  function MainDifficulty(reading: Reading, items: Storage.Items, codec: Argon.Codec<BlockView>,
                          argon: Bytes -> Bytes, blobPow: Bytes -> bool,
                          block: Bytes, prevHash: Option<Bytes>, prevId: Option<int>): (r: Result<MainCheck, BlockError>)
    ensures codec.fromBuffer(block).None? ==> r == Err(DecodeFailed)
    ensures (codec.fromBuffer(block).Some? && prevHash.Some? &&
             |prevHash.value| != |codec.fromBuffer(block).value.prevHash|) ==> r.Err?
    ensures (codec.fromBuffer(block).Some? && prevHash.Some? &&
             |prevHash.value| == |codec.fromBuffer(block).value.prevHash| &&
             prevHash.value != codec.fromBuffer(block).value.prevHash) ==> r == Ok(Rejected)
    ensures (codec.fromBuffer(block).Some? &&
             (prevHash.None? || prevHash.value == codec.fromBuffer(block).value.prevHash) &&
             prevId.Some? && prevId.value != 0 && prevId.value + 1 != codec.fromBuffer(block).value.id) ==> r == Ok(Rejected)
    ensures r.Ok? && r.value.Accepted? ==>
              var parsed := codec.fromBuffer(block).value;
              && r.value.id == parsed.id
              && r.value.hash == (if reading == AsWritten then None else Some(argon(block)))
              && Difficulty.GetDifficulty(items, MAIN).Ok?
              && Argon.VerifyArgon(reading, MAIN, codec, argon, block, Difficulty.GetDifficulty(items, MAIN).value) == Ok((true, parsed))
              && |parsed.blobs| + |parsed.padding| * BIG_PADDING_COEFF >= NUMBER_OF_BLOBS
              && PaddingRecords.VerifyPaddingSpec(reading, items, PADDING_BIG, argon, parsed.prevHash,
                                                  PaddingCount(|parsed.blobs|), parsed.padding).Ok?
              && (reading == Intended ==>
                    PaddingRecords.VerifyPaddingSpec(reading, items, PADDING_BIG, argon, parsed.prevHash,
                                                     PaddingCount(|parsed.blobs|), parsed.padding) == Ok(PaddingRecords.Valid))
              && BlobsPass(blobPow, parsed.blobs, 0)
  {
    match codec.fromBuffer(block)
    case None => Err(DecodeFailed)
    case Some(parsed) =>
      var hashCheck := if prevHash.Some? then Compare.BufferDiff(prevHash.value, parsed.prevHash) else Ok(0);
      if hashCheck.Err? then Err(HashLength(hashCheck.error))
      else if hashCheck.value != 0 then Ok(Rejected)
      else if prevId.Some? && prevId.value != 0 && prevId.value + 1 != parsed.id then Ok(Rejected)
      else
        Compare.BufferDiffCases(if prevHash.Some? then prevHash.value else [], parsed.prevHash);
        match Difficulty.GetDifficulty(items, MAIN)
        case Err(e) => Err(NoDifficulty(e))
        case Ok(main) =>
          match Argon.VerifyArgon(reading, MAIN, codec, argon, block, main)
          case Err(e) => Err(ArgonFailed(e))
          case Ok((isValid, next)) =>
            if !isValid then Ok(Rejected)
            else if |parsed.blobs| + |parsed.padding| * BIG_PADDING_COEFF < NUMBER_OF_BLOBS then Ok(Rejected)
            else
              match PaddingRecords.VerifyPaddingSpec(reading, items, PADDING_BIG, argon, parsed.prevHash,
                                                     PaddingCount(|parsed.blobs|), parsed.padding)
              case Err(e) => Err(PaddingFailed(e))
              case Ok(verdict) =>
                if reading == Intended && verdict.Rejected? then Ok(Rejected)
                else if !BlobsPass(blobPow, parsed.blobs, 0) then Ok(Rejected)
                else Ok(Accepted(next.id, if reading == AsWritten then None else Some(argon(block))))
  }

  /** validateMainDifficulty. */
  method ValidateMainDifficulty(reading: Reading, items: Storage.Items, codec: Argon.Codec<BlockView>,
                                argon: Bytes -> Bytes, blobPow: Bytes -> bool,
                                block: Bytes, prevHash: Option<Bytes>, prevId: Option<int>)
    returns (r: Result<MainCheck, BlockError>)
    ensures r == MainDifficulty(reading, items, codec, argon, blobPow, block, prevHash, prevId)
  {
    var decoded := codec.fromBuffer(block);
    if decoded.None? {
      return Err(DecodeFailed);
    }
    var parsed := decoded.value;
    if prevHash.Some? {
      var diff := Compare.CompareBuffers(prevHash.value, parsed.prevHash);
      if diff.Err? {
        return Err(HashLength(diff.error));
      }
      if diff.value != 0 {
        return Ok(Rejected);
      }
    }
    if prevId.Some? && prevId.value != 0 && prevId.value + 1 != parsed.id {
      return Ok(Rejected);
    }
    var main := Difficulty.GetDifficulty(items, MAIN);
    if main.Err? {
      return Err(NoDifficulty(main.error));
    }
    var paddingCount := PaddingCount(|parsed.blobs|);
    var verified := Argon.VerifyArgon(reading, MAIN, codec, argon, block, main.value);
    if verified.Err? {
      return Err(ArgonFailed(verified.error));
    }
    var (isValid, next) := verified.value;
    if !isValid {
      return Ok(Rejected);
    }
    if |parsed.blobs| + |parsed.padding| * BIG_PADDING_COEFF < NUMBER_OF_BLOBS {
      return Ok(Rejected);
    }
    var verdict := PaddingRecords.VerifyPadding(reading, items, PADDING_BIG, argon, parsed.prevHash, paddingCount, parsed.padding);
    if verdict.Err? {
      return Err(PaddingFailed(verdict.error));
    }
    if reading == Intended && verdict.value.Rejected? {
      return Ok(Rejected);
    }
    for i := 0 to |parsed.blobs|
      invariant BlobsPass(blobPow, parsed.blobs, 0) == BlobsPass(blobPow, parsed.blobs, i)
    {
      if !blobPow(parsed.blobs[i]) {
        return Ok(Rejected);
      }
    }
    return Ok(Accepted(next.id, if reading == AsWritten then None else Some(argon(block))));
  }

  /** The loop of validateMainsDifficulty from block `from` on, with the
      hash and id that the previous iteration left. */
  function Chain(reading: Reading, items: Storage.Items, codec: Argon.Codec<BlockView>,
                 argon: Bytes -> Bytes, blobPow: Bytes -> bool,
                 blocks: seq<Bytes>, from: nat, prevHash: Option<Bytes>, prevId: Option<int>): Result<bool, BlockError>
    decreases |blocks| - from
  {
    if from >= |blocks| then Ok(true)
    else match MainDifficulty(reading, items, codec, argon, blobPow, blocks[from], prevHash, prevId)
      case Err(e) => Err(e)
      case Ok(Rejected) => Ok(false)
      case Ok(Accepted(id, hash)) => Chain(reading, items, codec, argon, blobPow, blocks, from + 1, hash, Some(id))
  }

  /** validateMainsDifficulty: the first block is checked without a
      previous hash or id. */
  method ValidateMainsDifficulty(reading: Reading, items: Storage.Items, codec: Argon.Codec<BlockView>,
                                 argon: Bytes -> Bytes, blobPow: Bytes -> bool, blocks: seq<Bytes>)
    returns (r: Result<bool, BlockError>)
    ensures r == Chain(reading, items, codec, argon, blobPow, blocks, 0, None, None)
  {
    var prevHash: Option<Bytes> := None;
    var prevId: Option<int> := None;
    for i := 0 to |blocks|
      invariant Chain(reading, items, codec, argon, blobPow, blocks, 0, None, None)
                == Chain(reading, items, codec, argon, blobPow, blocks, i, prevHash, prevId)
    {
      var checked := ValidateMainDifficulty(reading, items, codec, argon, blobPow, blocks[i], prevHash, prevId);
      if checked.Err? {
        return Err(checked.error);
      }
      if checked.value.Rejected? {
        return Ok(false);
      }
      prevId := Some(checked.value.id);
      prevHash := checked.value.hash;
    }
    return Ok(true);
  }

  /** When the intended chain validates, every block after the first names
      the previous block's digest as its prevHash, and its id follows the
      previous id unless that id is 0. */
  lemma {:induction false} ChainLinks(items: Storage.Items, codec: Argon.Codec<BlockView>,
                                      argon: Bytes -> Bytes, blobPow: Bytes -> bool,
                                      blocks: seq<Bytes>, from: nat, prevHash: Option<Bytes>, prevId: Option<int>)
    requires from < |blocks|
    requires Chain(Intended, items, codec, argon, blobPow, blocks, from, prevHash, prevId) == Ok(true)
    ensures forall i :: from <= i < |blocks| ==> codec.fromBuffer(blocks[i]).Some?
    ensures forall i :: from < i < |blocks| ==>
              codec.fromBuffer(blocks[i]).value.prevHash == argon(blocks[i - 1])
    ensures forall i :: from < i < |blocks| ==>
              var previous := codec.fromBuffer(blocks[i - 1]).value.id;
              previous != 0 ==> codec.fromBuffer(blocks[i]).value.id == previous + 1
    decreases |blocks| - from
  {
    var checked := MainDifficulty(Intended, items, codec, argon, blobPow, blocks[from], prevHash, prevId);
    assert checked.Ok? && checked.value.Accepted?;
    if from + 1 < |blocks| {
      ChainLinks(items, codec, argon, blobPow, blocks, from + 1, checked.value.hash, Some(checked.value.id));
    }
  }

  // ---------------------------------------------------------------------
  // The chain check as written

  /** A block decoder for the example below: the id is the length of the
      block, the prevHash is 32 zero bytes, ten blobs and no padding. */
  function ExampleView(bs: Bytes): BlockView
  {
    BlockView(|bs|, seq(32, _ => 0), seq(NUMBER_OF_BLOBS, _ => []), [])
  }

  function ExampleCodec(): Argon.Codec<BlockView>
  {
    Argon.Codec((bs: Bytes) => Some(ExampleView(bs)), (v: BlockView) => Some([]), (v: BlockView, d: Bytes) => v)
  }

  /** Every block's digest is the text "000...0", which as written reads as
      the number 0. */
  function ExampleArgon(): Bytes -> Bytes
  {
    (bs: Bytes) => seq(32, _ => 0x30)
  }

  lemma ExampleBlockAccepted(block: Bytes, prevId: Option<int>)
    requires prevId.None? || prevId.value + 1 == |block|
    ensures MainDifficulty(AsWritten, map[], ExampleCodec(), ExampleArgon(), (bs: Bytes) => true, block, None, prevId)
            == Ok(Accepted(|block|, None))
  {
    Argon.DigestReadAsText();
    var view := ExampleView(block);
    assert PaddingCount(|view.blobs|) == 0.0;
    assert PaddingRecords.VerifyPaddingSpec(AsWritten, map[], PADDING_BIG, ExampleArgon(), view.prevHash, 0.0, [])
           == Ok(PaddingRecords.Valid);
  }

  /** As written the accepted result carries no hash, so the chain never
      compares a block's prevHash with its predecessor: two blocks whose
      prevHash is 32 zero bytes validate although the first block's digest
      is not zero. The intended chain rejects them. */
  lemma ChainIgnoresPrevHash()
    ensures Chain(AsWritten, map[], ExampleCodec(), ExampleArgon(), (bs: Bytes) => true, [[1], [1, 2]], 0, None, None) == Ok(true)
    ensures ExampleArgon()([1]) != ExampleView([1, 2]).prevHash
    ensures Chain(Intended, map[], ExampleCodec(), ExampleArgon(), (bs: Bytes) => true, [[1], [1, 2]], 0, None, None) != Ok(true)
  {
    var blocks: seq<Bytes> := [[1], [1, 2]];
    ExampleBlockAccepted(blocks[0], None);
    ExampleBlockAccepted(blocks[1], Some(1));
    assert ExampleArgon()([1])[0] != ExampleView([1, 2]).prevHash[0];
    var first := MainDifficulty(Intended, map[], ExampleCodec(), ExampleArgon(), (bs: Bytes) => true, blocks[0], None, None);
    if first.Ok? && first.value.Accepted? {
      assert first.value.hash == Some(ExampleArgon()(blocks[0]));
      var second := MainDifficulty(Intended, map[], ExampleCodec(), ExampleArgon(), (bs: Bytes) => true, blocks[1],
                                   first.value.hash, Some(first.value.id));
      assert second.Ok? ==> second == Ok(Rejected);
    }
  }

  // ---------------------------------------------------------------------
  // parallelValidation

  /** A number that some split length can equal. */
  predicate PositiveWhole(x: real)
  {
    x >= 1.0 && x.Floor as real == x
  }

  /** The shape parallelValidation's splits keep: none is empty, all but
      the last hold exactly splitBy blocks, none holds more when splitBy is
      a positive integer, and there is at most one otherwise. */
  predicate Shaped(splits: seq<seq<Bytes>>, splitBy: real)
  {
    && (forall i :: 0 <= i < |splits| ==> |splits[i]| > 0)
    && (forall i :: 0 <= i < |splits| - 1 ==> |splits[i]| as real == splitBy)
    && (PositiveWhole(splitBy) ==> forall i :: 0 <= i < |splits| ==> |splits[i]| as real <= splitBy)
    && (!PositiveWhole(splitBy) ==> |splits| <= 1)
  }

  /** A new split after a full one keeps the shape. */
  lemma StartSplit(splits: seq<seq<Bytes>>, x: Bytes, splitBy: real)
    requires Shaped(splits, splitBy)
    requires splits == [] || |splits[|splits| - 1]| as real == splitBy
    ensures Shaped(splits + [[x]], splitBy)
  {
    var r := splits + [[x]];
    if splits != [] {
      assert PositiveWhole(splitBy) by {
        assert (|splits[|splits| - 1]| as real).Floor == |splits[|splits| - 1]|;
      }
      assert forall i :: 0 <= i < |r| - 1 ==> r[i] == splits[i];
    }
  }

  /** Appends x to the last split, which is shorter than splitBy. */
  function Extended(splits: seq<seq<Bytes>>, x: Bytes, splitBy: real): (r: seq<seq<Bytes>>)
    requires splits != [] && |splits[|splits| - 1]| as real != splitBy
    requires Shaped(splits, splitBy)
    ensures r == splits[..|splits| - 1] + [splits[|splits| - 1] + [x]]
    ensures Shaped(r, splitBy)
  {
    var last := splits[|splits| - 1];
    assert PositiveWhole(splitBy) ==> |last| < splitBy.Floor;
    var r := splits[..|splits| - 1] + [last + [x]];
    assert forall i :: 0 <= i < |r| - 1 ==> r[i] == splits[i];
    r
  }

  /** The splits of parallelValidation: each block goes into a new split when
      there is none yet or the last one holds exactly splitBy blocks, and is
      appended to the last one otherwise. splitBy is a JavaScript number; one
      that is not a positive integer never equals a length, so every block
      lands in one split. */
  method Partition(blocks: seq<Bytes>, splitBy: real) returns (splits: seq<seq<Bytes>>)
    ensures Flatten(splits) == blocks
    ensures forall i :: 0 <= i < |splits| ==> |splits[i]| > 0
    ensures forall i :: 0 <= i < |splits| - 1 ==> |splits[i]| as real == splitBy
    ensures PositiveWhole(splitBy) ==> forall i :: 0 <= i < |splits| ==> |splits[i]| as real <= splitBy
    ensures !PositiveWhole(splitBy) ==> |splits| <= 1
    ensures blocks == [] <==> splits == []
  {
    splits := [];
    for k := 0 to |blocks|
      invariant Flatten(splits) == blocks[..k]
      invariant Shaped(splits, splitBy)
      invariant k == 0 <==> splits == []
    {
      assert blocks[..k + 1] == blocks[..k] + [blocks[k]];
      if |splits| == 0 || |splits[|splits| - 1]| as real == splitBy {
        FlattenPush(splits, [blocks[k]]);
        StartSplit(splits, blocks[k], splitBy);
        splits := splits + [[blocks[k]]];
      } else {
        FlattenExtendLast(splits, blocks[k]);
        splits := Extended(splits, blocks[k], splitBy);
      }
    }
    assert blocks[..|blocks|] == blocks;
  }

  /** The boundary checks from split i on: the last block of split i - 1
      and the first of split i, as a two-block chain. */
  function Boundaries(reading: Reading, items: Storage.Items, codec: Argon.Codec<BlockView>,
                      argon: Bytes -> Bytes, blobPow: Bytes -> bool,
                      splits: seq<seq<Bytes>>, i: nat): Result<bool, BlockError>
    requires forall j :: 0 <= j < |splits| ==> |splits[j]| > 0
    requires i >= 1
    decreases |splits| - i
  {
    if i >= |splits| then Ok(true)
    else
      var pair := [splits[i - 1][|splits[i - 1]| - 1], splits[i][0]];
      match Chain(reading, items, codec, argon, blobPow, pair, 0, None, None)
      case Err(e) => Err(e)
      case Ok(false) => Ok(false)
      case Ok(true) => Boundaries(reading, items, codec, argon, blobPow, splits, i + 1)
  }

  /** Every segment validator accepts its split. */
  predicate AllSegmentsPass(validate: (seq<Bytes>, int) -> bool, splits: seq<seq<Bytes>>)
  {
    forall i :: 0 <= i < |splits| ==> validate(splits[i], i)
  }

  /** The boundary pass of parallelValidation: each pair in order, the
      first failure deciding. */
  method CheckBoundaries(reading: Reading, items: Storage.Items, codec: Argon.Codec<BlockView>,
                         argon: Bytes -> Bytes, blobPow: Bytes -> bool, splits: seq<seq<Bytes>>)
    returns (r: Result<bool, BlockError>)
    requires forall j :: 0 <= j < |splits| ==> |splits[j]| > 0
    ensures r == Boundaries(reading, items, codec, argon, blobPow, splits, 1)
  {
    var i := 1;
    while i < |splits|
      invariant i >= 1
      invariant Boundaries(reading, items, codec, argon, blobPow, splits, 1)
                == Boundaries(reading, items, codec, argon, blobPow, splits, i)
    {
      var prev := splits[i - 1];
      var current := splits[i];
      var checked := ValidateMainsDifficulty(reading, items, codec, argon, blobPow, [prev[|prev| - 1], current[0]]);
      if checked.Err? {
        return Err(checked.error);
      }
      if !checked.value {
        return Ok(false);
      }
      i := i + 1;
    }
    return Ok(true);
  }

  /** The segment pass: every split handed to its validator. */
  method CheckSegments(validate: (seq<Bytes>, int) -> bool, splits: seq<seq<Bytes>>) returns (all: bool)
    ensures all <==> AllSegmentsPass(validate, splits)
  {
    all := true;
    for i := 0 to |splits|
      invariant all <==> forall j :: 0 <= j < i ==> validate(splits[j], j)
    {
      all := all && validate(splits[i], i);
    }
  }

  /** parallelValidation: the boundaries in order, the first failure
      deciding; then every segment validator. */
  method ParallelValidation(reading: Reading, items: Storage.Items, codec: Argon.Codec<BlockView>,
                            argon: Bytes -> Bytes, blobPow: Bytes -> bool,
                            blocks: seq<Bytes>, splitBy: real, validate: (seq<Bytes>, int) -> bool)
    returns (splits: seq<seq<Bytes>>, r: Result<bool, BlockError>)
    ensures Flatten(splits) == blocks && forall i :: 0 <= i < |splits| ==> |splits[i]| > 0
    ensures forall i :: 0 <= i < |splits| - 1 ==> |splits[i]| as real == splitBy
    ensures PositiveWhole(splitBy) ==> forall i :: 0 <= i < |splits| ==> |splits[i]| as real <= splitBy
    ensures !PositiveWhole(splitBy) ==> |splits| <= 1
    ensures blocks == [] <==> splits == []
    ensures Boundaries(reading, items, codec, argon, blobPow, splits, 1) == Ok(true) ==>
              r == Ok(AllSegmentsPass(validate, splits))
    ensures Boundaries(reading, items, codec, argon, blobPow, splits, 1).Err? ==>
              r == Boundaries(reading, items, codec, argon, blobPow, splits, 1)
    ensures r == Ok(true) <==>
              Boundaries(reading, items, codec, argon, blobPow, splits, 1) == Ok(true) && AllSegmentsPass(validate, splits)
    ensures Boundaries(reading, items, codec, argon, blobPow, splits, 1) == Ok(false) ==> r == Ok(false)
  {
    splits := Partition(blocks, splitBy);
    r := CheckBoundaries(reading, items, codec, argon, blobPow, splits);
    if r == Ok(true) {
      var all := CheckSegments(validate, splits);
      r := Ok(all);
    }
  }

  /** With splitBy a positive integer the splits are unique: all but the
      last hold exactly splitBy blocks, so split i starts at i * splitBy. */
  lemma {:induction false} SplitStarts(splits: seq<seq<Bytes>>, n: nat, i: nat)
    requires n >= 1 && i <= |splits|
    requires forall j :: 0 <= j < |splits| - 1 ==> |splits[j]| == n
    ensures i < |splits| ==> |Flatten(splits[..i])| == i * n
    ensures i == |splits| && i > 0 ==> |Flatten(splits[..i])| == (i - 1) * n + |splits[i - 1]|
  {
    if i > 0 {
      SplitStarts(splits, n, i - 1);
      assert splits[..i][..i - 1] == splits[..i - 1];
    }
  }

  // ---------------------------------------------------------------------
  // manufactureBlock

  /** One result of a query batch as manufactureBlock reads it. */
  datatype QueryResult = QueryResult(resultType: Bytes, author: Bytes, difficulty: Bytes,
                                     transactions: seq<Bytes>, latestKeys: seq<Bytes>)

  /** The blob built for a result: merkle.includes is the root over its
      transactions, merkle.query the root over their latest-keys. */
  datatype BlobDraft = BlobDraft(blobType: Bytes, author: Bytes, difficulty: Bytes, bloom: Bytes,
                                 includes: Bytes, query: Bytes)

  datatype BlockDraft = BlockDraft(id: int, timestamp: int, prevHash: Bytes, author: Bytes,
                                   blobs: seq<BlobDraft>, difficulty: Bytes, padding: seq<Serializer.Padding>, limit: Bytes)

  function MerkleRoot(tree: Merkle.Tree, values: seq<Bytes>): Bytes
  {
    tree.root(Merkle.Leaves(Merkle.Sort(values)))
  }

  function BlobOf(tree: Merkle.Tree, bloom: seq<Bytes> -> Bytes, r: QueryResult): BlobDraft
  {
    BlobDraft(r.resultType, r.author, r.difficulty, bloom(r.latestKeys),
              MerkleRoot(tree, r.transactions), MerkleRoot(tree, r.latestKeys))
  }

  /** The block manufactureBlock submits for mining, before
      computeDifficulty. prevHash is the digest of the previous block and
      now the clock. Both `limit` and `difficulty` are hexadecimal text
      starting with "0x", which Buffer.from(..., "hex") stops reading at
      the "x": they are empty buffers. createPadding mines the padding. */
  function Manufacture(reading: Reading, prevId: int, prevHash: Bytes, results: seq<QueryResult>, author: Bytes,
                       now: int, tree: Merkle.Tree, bloom: seq<Bytes> -> Bytes,
                       mine: Bytes -> Option<Serializer.Padding>): (r: Result<BlockDraft, PaddingRecords.PaddingError>)
    ensures r.Ok? ==> r.value.id == prevId + 1 && r.value.prevHash == prevHash && r.value.author == author
    ensures r.Ok? ==> r.value.timestamp == now && r.value.limit == [] && r.value.difficulty == []
    ensures r.Ok? ==> |r.value.blobs| == |results|
    ensures r.Ok? ==> forall i :: 0 <= i < |results| ==> r.value.blobs[i] == BlobOf(tree, bloom, results[i])
    ensures r.Ok? <==>
              PaddingRecords.Paddings(reading, prevHash, 0, PaddingRecords.Iterations(PaddingCount(|results|)), mine).Ok?
    ensures r.Ok? ==>
              r.value.padding ==
                PaddingRecords.Paddings(reading, prevHash, 0, PaddingRecords.Iterations(PaddingCount(|results|)), mine).value
  {
    var paddingCount := PaddingCount(|results|);
    match PaddingRecords.Paddings(reading, prevHash, 0, PaddingRecords.Iterations(paddingCount), mine)
    case Err(e) => Err(e)
    case Ok(padding) =>
      Ok(BlockDraft(prevId + 1, now, prevHash, author,
                    seq(|results|, i requires 0 <= i < |results| => BlobOf(tree, bloom, results[i])),
                    [], padding, []))
  }

  /** Unless the blob count is 0, 5 or 10 (or any other multiple of 5), the
      padding count is fractional; createPadding then mines one record more
      than the count, and verifyPadding rejects the count. */
  lemma FractionalPaddingCount(blobCount: int)
    requires blobCount % BIG_PADDING_COEFF != 0
    ensures PaddingCount(blobCount).Floor as real != PaddingCount(blobCount)
    ensures PaddingRecords.Iterations(PaddingCount(blobCount)) as real != PaddingCount(blobCount)
  {
    var c := PaddingCount(blobCount);
    var m := NUMBER_OF_BLOBS - blobCount;
    assert c.Floor * BIG_PADDING_COEFF != m;
    assert (c.Floor * BIG_PADDING_COEFF) as real != m as real;
  }

  /** A manufactured block whose blob count is not a multiple of 5 carries
      one padding record more than its padding count, so the intended
      verifyPadding, which also ignores the difference between a record and
      its encoding, answers "Wrong count" for it. */
  lemma ManufacturedPaddingRejected(reading: Reading, items: Storage.Items, argon: Bytes -> Bytes,
                                    prevId: int, prevHash: Bytes, results: seq<QueryResult>, author: Bytes,
                                    now: int, tree: Merkle.Tree, bloom: seq<Bytes> -> Bytes,
                                    mine: Bytes -> Option<Serializer.Padding>)
    requires |results| % BIG_PADDING_COEFF != 0
    requires Difficulty.GetDifficulty(items, PADDING_BIG).Ok?
    requires Manufacture(reading, prevId, prevHash, results, author, now, tree, bloom, mine).Ok?
    ensures var draft := Manufacture(reading, prevId, prevHash, results, author, now, tree, bloom, mine).value;
            var entries := seq(|draft.padding|, i requires 0 <= i < |draft.padding| => PaddingRecords.Decoded(draft.padding[i]));
            PaddingRecords.VerifyPaddingSpec(Intended, items, PADDING_BIG, argon, prevHash, PaddingCount(|results|), entries)
            == Ok(PaddingRecords.Rejected("Wrong count"))
  {
    var n := PaddingRecords.Iterations(PaddingCount(|results|));
    PaddingRecords.PaddingsContents(reading, prevHash, 0, n, mine);
    FractionalPaddingCount(|results|);
  }
}
