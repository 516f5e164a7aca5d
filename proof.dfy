/** src/proof.ts: createInclusionProof, the scan that collects one negative
    Merkle proof for every later block whose Bloom filter may hold the
    latest-key of a transaction.

    The Bloom check (verifyBloom, a foreign library), base64 decoding of a
    key string and createMerkleProof (imported from merkle.ts, which does
    not export it) are oracles. The item schema and query come from the
    type registry (dynamic-types.ts), which is not part of this model: the
    caller passes them as the Schema. */
module InclusionProof {
  import opened Common
  import Compare
  import Storage
  import Indexer
  import Merkle
  import Serializer

  datatype ProofError =
    | IndexFailed(indexError: Indexer.IndexError)       // getLatestItem, getBlockById or getItemsByIndex throws
    | BlobType(compareError: Compare.CompareError)     // compareBuffers throws inside blobs.find
    | NoProof(merkleError: Merkle.MerkleError)         // createMerkleProof throws
    | PositiveProof(blockId: int)                // "Created positive proof where it ought not to"

  /** verifyBloom(bloom, key), Buffer.from(key, "base64") and
      createMerkleProof(leaves, hash). */
  datatype Oracles = Oracles(
    bloom: (Bytes, string) -> bool,
    base64: string -> Bytes,
    prove: (seq<Bytes>, Bytes) -> Result<Merkle.EitherProof, Merkle.MerkleError>)

  /** What the scan reads: the store, the block decoder, the item schema,
      the oracles, the item type and the latest-key. */
  datatype Context<!T> = Context(
    items: Storage.Items, fromBuffer: Indexer.BlockDecoder, schema: Indexer.Schema<T>,
    oracles: Oracles, itemType: Bytes, latestKey: string)

  /** blobs.find(blob => compareBuffers(blob.type, type) === 0): the first
      blob of the type; compareBuffers throws on a blob type of another
      length met before it. */
  function FindBlob(blobs: seq<Serializer.BlobHash>, itemType: Bytes): Result<Option<Serializer.BlobHash>, Compare.CompareError>
  {
    if blobs == [] then Ok(None)
    else
      match Compare.BufferDiff(blobs[0].blobType, itemType)
      case Err(e) => Err(e)
      case Ok(d) => if d == 0 then Ok(Some(blobs[0])) else FindBlob(blobs[1..], itemType)
  }

  /** The blob found has the type; when every blob type has the length of
      the item type nothing throws, and no blob is found exactly when none
      has the type. */
  lemma {:induction false} FindBlobFinds(blobs: seq<Serializer.BlobHash>, itemType: Bytes)
    ensures var r := FindBlob(blobs, itemType);
            r.Ok? && r.value.Some? ==> r.value.value in blobs && r.value.value.blobType == itemType
    ensures (forall k :: 0 <= k < |blobs| ==> |blobs[k].blobType| == |itemType|) ==>
              var r := FindBlob(blobs, itemType);
              r.Ok? && (r.value.None? <==> forall k :: 0 <= k < |blobs| ==> blobs[k].blobType != itemType)
  {
    if blobs != [] {
      Compare.BufferDiffCases(blobs[0].blobType, itemType);
      FindBlobFinds(blobs[1..], itemType);
      assert forall k :: 0 < k < |blobs| ==> blobs[k] == blobs[1..][k - 1];
    }
  }

  /** The index of each item: makeIndex over the query, read as base64. */
  function Indexes<T>(ctx: Context<T>, found: seq<T>): (r: seq<Bytes>)
    ensures |r| == |found|
  {
    seq(|found|, k requires 0 <= k < |found| => ctx.oracles.base64(ctx.schema.makeIndex(found[k])))
  }

  /** The block of the type with id i may hold the latest-key. */
  predicate Flagged<T>(ctx: Context<T>, i: int)
  {
    && Indexer.BlockById(ctx.fromBuffer, ctx.items, i).Ok?
    && var blob := FindBlob(Indexer.BlockById(ctx.fromBuffer, ctx.items, i).value.blobs, ctx.itemType);
       blob.Ok? && blob.value.Some? && ctx.oracles.bloom(blob.value.value.bloom, ctx.latestKey)
  }

  /** One iteration of the scan, for block id i: None when the block is
      skipped, the negative proof when it is flagged. */
  function Step<T>(ctx: Context<T>, i: int): Result<Option<Merkle.NegativeProof>, ProofError>
  {
    match Indexer.BlockById(ctx.fromBuffer, ctx.items, i)
    case Err(e) => Err(IndexFailed(e))
    case Ok(block) =>
      match FindBlob(block.blobs, ctx.itemType)
      case Err(e) => Err(BlobType(e))
      case Ok(blob) =>
        if blob.None? || !ctx.oracles.bloom(blob.value.bloom, ctx.latestKey) then Ok(None)
        else
          match Indexer.ItemsUnder(ctx.items, ctx.schema, Storage.IndexTypeKey(i, ctx.itemType), ctx.itemType)
          case Err(e) => Err(IndexFailed(e))
          case Ok(found) =>
            match ctx.oracles.prove(Indexes(ctx, found), ctx.oracles.base64(ctx.latestKey))
            case Err(e) => Err(NoProof(e))
            case Ok(Positive(_, _)) => Err(PositiveProof(i))
            case Ok(Negative(n)) => Ok(Some(n))
  }

  /** The loop from block id i up to, and not including, currentIndex, for
      a given iteration `step`. */
  function Scan<X, E>(step: int -> Result<Option<X>, E>, i: int, currentIndex: int): Result<seq<X>, E>
    decreases currentIndex - i
  {
    if i >= currentIndex then Ok([])
    else
      match step(i)
      case Err(e) => Err(e)
      case Ok(None) => Scan(step, i + 1, currentIndex)
      case Ok(Some(n)) => Prepend([n], Scan(step, i + 1, currentIndex))
  }

  /** One step of the scan, in terms of the step's outcome. */
  lemma ScanUnfold<X, E>(step: int -> Result<Option<X>, E>, i: int, currentIndex: int, outcome: Result<Option<X>, E>)
    requires i < currentIndex && outcome == step(i)
    ensures outcome.Err? ==> Scan(step, i, currentIndex) == Err(outcome.error)
    ensures outcome.Ok? && outcome.value.None? ==> Scan(step, i, currentIndex) == Scan(step, i + 1, currentIndex)
    ensures outcome.Ok? && outcome.value.Some? ==>
              Scan(step, i, currentIndex) == Prepend([outcome.value.value], Scan(step, i + 1, currentIndex))
  {
  }

  /** The iteration of createInclusionProof's loop. */
  function StepOf<T>(ctx: Context<T>): int -> Result<Option<Merkle.NegativeProof>, ProofError>
  {
    (i: int) => Step(ctx, i)
  }

  /** createInclusionProof: the latest item of `current`, then the scan over
      the block ids after its block and before currentIndex. */
  function InclusionProofs<T>(reading: Reading, items: Storage.Items, fromBuffer: Indexer.BlockDecoder,
                              schema: Indexer.Schema<T>, unwrap: Bytes -> Option<Storage.WithMetadata>,
                              oracles: Oracles, current: Bytes, itemType: Bytes, currentIndex: int)
    : Result<seq<Merkle.NegativeProof>, ProofError>
  {
    match Indexer.LatestItem(reading, items, schema, unwrap, current)
    case Err(e) => Err(IndexFailed(e))
    case Ok(latest) =>
      Scan(StepOf(Context(items, fromBuffer, schema, oracles, itemType, latest.latestKey.name)), latest.blockIndex + 1, currentIndex)
  }

  /** createInclusionProof. The source collects the proofs and then drops
      them (it resolves to undefined); the model returns what it collects. */
  method CreateInclusionProof<T>(reading: Reading, store: Storage.Store, fromBuffer: Indexer.BlockDecoder,
                                 schema: Indexer.Schema<T>, unwrap: Bytes -> Option<Storage.WithMetadata>,
                                 oracles: Oracles, current: Bytes, itemType: Bytes, currentIndex: int)
    returns (r: Result<seq<Merkle.NegativeProof>, ProofError>)
    ensures r == InclusionProofs(reading, store.items, fromBuffer, schema, unwrap, oracles, current, itemType, currentIndex)
  {
    var latest := Indexer.GetLatestItem(reading, store, schema, unwrap, current);
    if latest.Err? {
      return Err(IndexFailed(latest.error));
    }
    var ctx := Context(store.items, fromBuffer, schema, oracles, itemType, latest.value.latestKey.name);
    r := ScanFrom(store, ctx, StepOf(ctx), latest.value.blockIndex + 1, currentIndex);
  }

  /** The loop of createInclusionProof over block ids from `from` up to
      currentIndex. */
  method ScanFrom<T>(store: Storage.Store, ctx: Context<T>, ghost step: int -> Result<Option<Merkle.NegativeProof>, ProofError>,
                     from: int, currentIndex: int)
    returns (r: Result<seq<Merkle.NegativeProof>, ProofError>)
    requires ctx.items == store.items
    requires forall j {:trigger Step(ctx, j)} :: step(j) == Step(ctx, j)
    ensures r == Scan(step, from, currentIndex)
  {
    ghost var whole := Scan(step, from, currentIndex);
    var proofs: seq<Merkle.NegativeProof> := [];
    var i := from;
    PrependConcat(proofs, [], whole);
    while i < currentIndex
      invariant whole == Prepend(proofs, Scan(step, i, currentIndex))
      decreases currentIndex - i
    {
      var outcome := ProveAt(store, ctx, i);
      assert outcome == step(i);
      ScanUnfold(step, i, currentIndex, outcome);
      if outcome.Err? {
        return Err(outcome.error);
      }
      ghost var rest := Scan(step, i + 1, currentIndex);
      if outcome.value.Some? {
        PrependConcat(proofs, [outcome.value.value], rest);
        proofs := proofs + [outcome.value.value];
      }
      assert whole == Prepend(proofs, rest);
      i := i + 1;
    }
    PrependConcat<Merkle.NegativeProof, ProofError>(proofs, [], Ok([]));
    return Ok(proofs);
  }

  /** One iteration of the loop over block ids: the block, its blob of the
      item type, the bloom filter, the items of the block and the proof. */
  method ProveAt<T>(store: Storage.Store, ctx: Context<T>, i: int) returns (r: Result<Option<Merkle.NegativeProof>, ProofError>)
    requires ctx.items == store.items
    ensures r == Step(ctx, i)
  {
    var block := Indexer.BlockById(ctx.fromBuffer, store.items, i);
    if block.Err? {
      return Err(IndexFailed(block.error));
    }
    var blob := FindBlob(block.value.blobs, ctx.itemType);
    if blob.Err? {
      return Err(BlobType(blob.error));
    }
    if !(blob.value.Some? && ctx.oracles.bloom(blob.value.value.bloom, ctx.latestKey)) {
      return Ok(None);
    }
    var found := Indexer.GetItemsByIndex(store, ctx.schema, i, ctx.itemType);
    if found.Err? {
      return Err(IndexFailed(found.error));
    }
    var indexes := seq(|found.value|, k requires 0 <= k < |found.value| => ctx.oracles.base64(ctx.schema.makeIndex(found.value[k])));
    assert indexes == Indexes(ctx, found.value);
    var proof := ctx.oracles.prove(indexes, ctx.oracles.base64(ctx.latestKey));
    if proof.Err? {
      return Err(NoProof(proof.error));
    }
    if proof.value.Positive? {
      return Err(PositiveProof(i));
    }
    return Ok(Some(proof.value.negative));
  }

  // ---------------------------------------------------------------------
  // What the scan visits and what it collects

  /** The outcome of each block id from i up to currentIndex, in order. */
  function Outcomes<X, E>(step: int -> Result<Option<X>, E>, i: int, currentIndex: int): (r: seq<Result<Option<X>, E>>)
    ensures |r| == if i >= currentIndex then 0 else currentIndex - i
  {
    if i >= currentIndex then [] else seq(currentIndex - i, k requires 0 <= k < currentIndex - i => step(i + k))
  }

  /** The values among some outcomes, in order. */
  function Present<X, E>(outcomes: seq<Result<Option<X>, E>>): seq<X>
  {
    if outcomes == [] then []
    else (if outcomes[0].Ok? && outcomes[0].value.Some? then [outcomes[0].value.value] else []) + Present(outcomes[1..])
  }

  /** The scan visits every block id from i up to currentIndex in ascending
      order: it succeeds exactly when every one of them succeeds. */
  lemma {:induction false} ScanSucceeds<X, E>(step: int -> Result<Option<X>, E>, i: int, currentIndex: int)
    ensures Scan(step, i, currentIndex).Ok? <==> forall j :: i <= j < currentIndex ==> step(j).Ok?
    decreases currentIndex - i
  {
    if i < currentIndex {
      ScanSucceeds(step, i + 1, currentIndex);
    }
  }

  /** A successful scan holds one value per block that yields one, in block
      order. */
  lemma {:induction false} ScanCollects<X, E>(step: int -> Result<Option<X>, E>, i: int, currentIndex: int)
    requires Scan(step, i, currentIndex).Ok?
    ensures Scan(step, i, currentIndex).value == Present(Outcomes(step, i, currentIndex))
    decreases currentIndex - i
  {
    if i < currentIndex {
      ScanCollects(step, i + 1, currentIndex);
      var os := Outcomes(step, i, currentIndex);
      assert os[0] == step(i);
      assert os[1..] == Outcomes(step, i + 1, currentIndex);
    }
  }

  /** A failed scan fails with the error of the first block that fails. */
  lemma {:induction false} ScanFailsFirst<X, E>(step: int -> Result<Option<X>, E>, i: int, currentIndex: int)
    requires Scan(step, i, currentIndex).Err?
    ensures exists j :: i <= j < currentIndex && step(j) == Err(Scan(step, i, currentIndex).error)
                        && forall k :: i <= k < j ==> step(k).Ok?
    decreases currentIndex - i
  {
    if step(i).Ok? {
      ScanFailsFirst(step, i + 1, currentIndex);
      var j :| i + 1 <= j < currentIndex && step(j) == Err(Scan(step, i + 1, currentIndex).error)
               && forall k :: i + 1 <= k < j ==> step(k).Ok?;
      assert forall k :: i <= k < j ==> step(k).Ok?;
    }
  }

  /** A block is skipped exactly when it has no blob of the type or its
      Bloom filter says no; it yields a proof exactly when it is flagged,
      its items are read and the proof is negative; and it throws "Created
      positive proof" exactly when it is flagged, its items are read and
      createMerkleProof answers with a positive proof. */
  lemma StepCases<T>(ctx: Context<T>, i: int)
    ensures Step(ctx, i) == Ok(None) <==>
              && Indexer.BlockById(ctx.fromBuffer, ctx.items, i).Ok?
              && FindBlob(Indexer.BlockById(ctx.fromBuffer, ctx.items, i).value.blobs, ctx.itemType).Ok?
              && !Flagged(ctx, i)
    ensures Step(ctx, i).Ok? && Step(ctx, i).value.Some? <==>
              && Flagged(ctx, i)
              && var found := Indexer.ItemsUnder(ctx.items, ctx.schema, Storage.IndexTypeKey(i, ctx.itemType), ctx.itemType);
                 && found.Ok?
                 && var proof := ctx.oracles.prove(Indexes(ctx, found.value), ctx.oracles.base64(ctx.latestKey));
                    proof.Ok? && proof.value.Negative? && Step(ctx, i).value.value == proof.value.negative
    ensures Step(ctx, i) == Err(PositiveProof(i)) <==>
              && Flagged(ctx, i)
              && var found := Indexer.ItemsUnder(ctx.items, ctx.schema, Storage.IndexTypeKey(i, ctx.itemType), ctx.itemType);
                 && found.Ok?
                 && var proof := ctx.oracles.prove(Indexes(ctx, found.value), ctx.oracles.base64(ctx.latestKey));
                    proof.Ok? && proof.value.Positive?
  {
  }

  // ---------------------------------------------------------------------
  // With createMerkleProof built from merkle.ts

  /** createMerkleProof as createMerkle's leaves followed by createProof. */
  function MerkleProve(tree: Merkle.Tree): (seq<Bytes>, Bytes) -> Result<Merkle.EitherProof, Merkle.MerkleError>
  {
    (values: seq<Bytes>, hash: Bytes) => Merkle.CreateProof(tree, Merkle.Leaves(Merkle.Sort(values)), hash)
  }

  /** With that createMerkleProof, a flagged block throws exactly when one of
      its items' index leaves compares equal to the latest-key, and every
      proof collected is a proof that the latest-key is absent. */
  lemma MerkleStep<T>(ctx: Context<T>, tree: Merkle.Tree, i: int)
    requires ctx.oracles.prove == MerkleProve(tree)
    requires Flagged(ctx, i)
    requires Indexer.ItemsUnder(ctx.items, ctx.schema, Storage.IndexTypeKey(i, ctx.itemType), ctx.itemType).Ok?
    ensures var found := Indexer.ItemsUnder(ctx.items, ctx.schema, Storage.IndexTypeKey(i, ctx.itemType), ctx.itemType).value;
            var leaves := Merkle.Leaves(Merkle.Sort(Indexes(ctx, found)));
            Step(ctx, i) == Err(PositiveProof(i)) <==> Merkle.SomeLeafEqual(leaves, ctx.oracles.base64(ctx.latestKey))
    ensures Step(ctx, i).Ok? ==> Step(ctx, i).value.Some? && Step(ctx, i).value.value.not == ctx.oracles.base64(ctx.latestKey)
  {
    var found := Indexer.ItemsUnder(ctx.items, ctx.schema, Storage.IndexTypeKey(i, ctx.itemType), ctx.itemType).value;
    var key := ctx.oracles.base64(ctx.latestKey);
    var leaves := Merkle.Leaves(Merkle.Sort(Indexes(ctx, found)));
    assert ctx.oracles.prove(Indexes(ctx, found), key) == Merkle.CreateProof(tree, leaves, key);
  }

  /** With that createMerkleProof, every proof the scan collects is about the
      latest-key. */
  lemma {:induction false} ScanProvesAbsence<T>(ctx: Context<T>, tree: Merkle.Tree, i: int, currentIndex: int)
    requires ctx.oracles.prove == MerkleProve(tree)
    requires Scan(StepOf(ctx), i, currentIndex).Ok?
    ensures forall p :: p in Scan(StepOf(ctx), i, currentIndex).value ==> p.not == ctx.oracles.base64(ctx.latestKey)
    decreases currentIndex - i
  {
    if i < currentIndex {
      assert StepOf(ctx)(i) == Step(ctx, i);
      ScanProvesAbsence(ctx, tree, i + 1, currentIndex);
      if Step(ctx, i).value.Some? {
        StepCases(ctx, i);
        MerkleStep(ctx, tree, i);
      }
    }
  }
}
