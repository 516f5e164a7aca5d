/** src/query.ts: validation of a batch of query results against the main
    block that carries them, across several blocks, the uniqueness part of
    the content check, and storing a batch in the indexer.

    A batch is modelled as query.ts uses it (its results carry a list of
    padding entries and each query a transaction and an inclusion path),
    and a main block as the fields validateQuery reads of it. Signature
    verification (wallet.ts), the padding context hash (sha256CompactKey),
    verifyMerkleProof (imported from merkle.ts, which does not export it),
    the type registry (dynamic-types.ts), typedots' get and the main-block
    decoder are oracles. */
module QueryValidation {
  import opened Common
  import Compare
  import Storage
  import Indexer
  import Merkle
  import PaddingRecords
  import Block
  import Difficulty

  const NUMBER_OF_TRANSACTIONS: int := 300
  const SMALL_PADDING_COEFF: int := 20

  datatype Query = Query(transaction: Bytes, proof: Merkle.Path)

  /** The results of one type: its padding entries and its queries. */
  datatype TypedQuery = TypedQuery(queryType: Bytes, padding: seq<PaddingRecords.PaddingEntry>, queries: seq<Query>)

  /** A batch: the hash and index of the main block it belongs to, and one
      TypedQuery per blob. */
  datatype Queries = Queries(hash: Bytes, index: int, results: seq<TypedQuery>)

  datatype Mode = Partial | Full

  /** What validateQuery reads of a blob and of a main block. */
  datatype BlobView = BlobView(blobType: Bytes, includes: Bytes)
  datatype BlockView = BlockView(prevHash: Bytes, blobs: seq<BlobView>)

  datatype QueryError =
    | NoBlob(position: nat)                           // block.blobs[i] is undefined
    | TypeLength(typeError: Compare.CompareError)     // compareBuffers throws on the types
    | RootLength(rootError: Compare.CompareError)     // compareBuffers throws on the roots
    | PaddingFailed(paddingError: PaddingRecords.PaddingError)  // verifyPadding throws
    | MissingBlock(blockHash: Bytes)                  // Buffer.from of an absent entry throws
    | BlockDecodeFailed                               // mainBlockType.fromBuffer throws
    | ItemDecodeFailed                                // messageType or the item schema throws

  /** verifySignature(tx).valid, sha256CompactKey(prevHash ++ type) read as
      base64, verifyMerkleProof(root, proof), the merkletreejs tree used by
      createMerkle, and Argon2id. */
  datatype Oracles = Oracles(
    signature: Bytes -> bool,
    paddingHash: Bytes -> Bytes,
    verifyMerkle: (Bytes, Merkle.EitherProof) -> bool,
    tree: Merkle.Tree,
    argon: Bytes -> Bytes)

  // ---------------------------------------------------------------------
  // validateQueriesSignature

  /** query.queries.map(q => q.transaction). */
  function Txs(r: TypedQuery): (txs: seq<Bytes>)
    ensures |txs| == |r.queries|
    ensures forall j :: 0 <= j < |r.queries| ==> txs[j] == r.queries[j].transaction
  {
    seq(|r.queries|, j requires 0 <= j < |r.queries| => r.queries[j].transaction)
  }

  /** The transactions of some results, result after result. */
  function AllTxs(rs: seq<TypedQuery>): seq<Bytes>
  {
    if rs == [] then [] else AllTxs(rs[..|rs| - 1]) + Txs(rs[|rs| - 1])
  }

  /** queries.results.flatMap(r => r.queries).map(q => q.transaction). */
  function Transactions(queries: Queries): seq<Bytes>
  {
    AllTxs(queries.results)
  }

  /** validateQueriesSignature: false at the first transaction whose
      signature is invalid, true when there is none. */
  method ValidateQueriesSignature(signature: Bytes -> bool, queries: Queries) returns (valid: bool)
    ensures valid <==> forall i :: 0 <= i < |Transactions(queries)| ==> signature(Transactions(queries)[i])
  {
    var transactions := Transactions(queries);
    for i := 0 to |transactions|
      invariant forall k :: 0 <= k < i ==> signature(transactions[k])
    {
      if !signature(transactions[i]) {
        return false;
      }
    }
    return true;
  }

  /** Query j of result i sits after the transactions of the results
      before i. */
  lemma {:induction false} TransactionsInOrder(rs: seq<TypedQuery>, i: nat, j: nat)
    requires i < |rs| && j < |rs[i].queries|
    ensures |AllTxs(rs[..i])| + j < |AllTxs(rs)| && AllTxs(rs)[|AllTxs(rs[..i])| + j] == rs[i].queries[j].transaction
    decreases |rs|
  {
    var front := rs[..|rs| - 1];
    if i < |rs| - 1 {
      TransactionsInOrder(front, i, j);
      assert front[..i] == rs[..i];
    } else {
      assert front == rs[..i];
    }
  }

  // ---------------------------------------------------------------------
  // validateQuery

  /** The padding count of a result: (300 - queries) / 20, a JavaScript
      number. */
  function PaddingCount(r: TypedQuery): (c: real)
    ensures c * SMALL_PADDING_COEFF as real == (NUMBER_OF_TRANSACTIONS - |r.queries|) as real
  {
    (NUMBER_OF_TRANSACTIONS - |r.queries|) as real / SMALL_PADDING_COEFF as real
  }

  /** Every query's inclusion path verifies against the blob's root. */
  predicate ProofsVerify(o: Oracles, includes: Bytes, r: TypedQuery)
  {
    forall j :: 0 <= j < |r.queries| ==> o.verifyMerkle(includes, Merkle.Positive(r.queries[j].proof, r.queries[j].transaction))
  }

  /** One iteration of validateQuery's loop, for result i: false when the
      result is rejected. As written the padding verdict is an object, which
      is truthy whatever it says; in the intended reading a rejected verdict
      rejects the result. */
  /** The full-mode part of one iteration: the result must fill its blob,
      its padding must verify, and the blob root must be the root over its
      transactions. */
  function FullCheck(reading: Reading, items: Storage.Items, o: Oracles, prevHash: Bytes, blob: BlobView, r: TypedQuery)
    : Result<bool, QueryError>
  {
    if |r.padding| * SMALL_PADDING_COEFF + |r.queries| < NUMBER_OF_TRANSACTIONS then Ok(false)
    else
      var hash := o.paddingHash(prevHash + r.queryType);
      match PaddingRecords.VerifyPaddingSpec(reading, items, PADDING_SMALL, o.argon, hash, PaddingCount(r), r.padding)
      case Err(e) => Err(PaddingFailed(e))
      case Ok(verdict) =>
        if reading == Intended && verdict.Rejected? then Ok(false)
        else
          match Compare.BufferDiff(blob.includes, Block.MerkleRoot(o.tree, Txs(r)))
          case Err(e) => Err(RootLength(e))
          case Ok(d) => Ok(d == 0)
  }

  /** One iteration of validateQuery's loop, for result i: false when the
      result is rejected. As written the padding verdict is an object, which
      is truthy whatever it says; in the intended reading a rejected verdict
      rejects the result. */
  function CheckResult(reading: Reading, items: Storage.Items, o: Oracles, block: BlockView, mode: Mode,
                       r: TypedQuery, i: nat): Result<bool, QueryError>
  {
    if i >= |block.blobs| then Err(NoBlob(i))
    else
      var blob := block.blobs[i];
      match Compare.BufferDiff(r.queryType, blob.blobType)
      case Err(e) => Err(TypeLength(e))
      case Ok(d) =>
        if d != 0 then Ok(false)
        else if mode == Partial then Ok(ProofsVerify(o, blob.includes, r))
        else FullCheck(reading, items, o, block.prevHash, blob, r)
  }

  /** Checks 0 .. n-1 in order: the first error or false, else true. */
  function FirstFailure<E>(check: nat -> Result<bool, E>, from: nat, n: nat): Result<bool, E>
    decreases n - from
  {
    if from >= n then Ok(true)
    else
      match check(from)
      case Err(e) => Err(e)
      case Ok(false) => Ok(false)
      case Ok(true) => FirstFailure(check, from + 1, n)
  }

  /** The loop over the results. */
  function CheckOf(reading: Reading, items: Storage.Items, o: Oracles, block: BlockView, queries: Queries, mode: Mode)
    : nat -> Result<bool, QueryError>
  {
    (i: nat) => if i < |queries.results| then CheckResult(reading, items, o, block, mode, queries.results[i], i) else Ok(true)
  }

  /** validateQuery. As written validateQueriesSignature is not awaited:
      its Promise is truthy, the check never rejects, and its outcome is
      never observed. */
  function ValidateQuerySpec(reading: Reading, items: Storage.Items, o: Oracles, block: BlockView, queries: Queries, mode: Mode)
    : Result<bool, QueryError>
  {
    if reading == Intended && !(forall i :: 0 <= i < |Transactions(queries)| ==> o.signature(Transactions(queries)[i])) then Ok(false)
    else FirstFailure(CheckOf(reading, items, o, block, queries, mode), 0, |queries.results|)
  }

  /** The full-mode part of one iteration. */
  method CheckFull(reading: Reading, items: Storage.Items, o: Oracles, prevHash: Bytes, blob: BlobView, r: TypedQuery)
    returns (ok: Result<bool, QueryError>)
    ensures ok == FullCheck(reading, items, o, prevHash, blob, r)
  {
    if |r.padding| * SMALL_PADDING_COEFF + |r.queries| < NUMBER_OF_TRANSACTIONS {
      return Ok(false);
    }
    var paddingCount := (NUMBER_OF_TRANSACTIONS - |r.queries|) as real / SMALL_PADDING_COEFF as real;
    var paddingHash := o.paddingHash(prevHash + r.queryType);
    var verdict := PaddingRecords.VerifyPadding(reading, items, PADDING_SMALL, o.argon, paddingHash, paddingCount, r.padding);
    if verdict.Err? {
      return Err(PaddingFailed(verdict.error));
    }
    if reading == Intended && verdict.value.Rejected? {
      return Ok(false);
    }
    var transactions := Txs(r);
    var hashes := new Bytes[|transactions|](k requires 0 <= k < |transactions| => transactions[k]);
    assert hashes[..] == transactions;
    var root, _ := Merkle.CreateMerkle(o.tree, hashes);
    var sameRoot := Compare.CompareBuffers(blob.includes, root);
    if sameRoot.Err? {
      return Err(RootLength(sameRoot.error));
    }
    return Ok(sameRoot.value == 0);
  }

  /** One iteration of validateQuery's loop. */
  method CheckOne(reading: Reading, items: Storage.Items, o: Oracles, block: BlockView, mode: Mode, r: TypedQuery, i: nat)
    returns (ok: Result<bool, QueryError>)
    ensures ok == CheckResult(reading, items, o, block, mode, r, i)
  {
    if i >= |block.blobs| {
      return Err(NoBlob(i));
    }
    var blob := block.blobs[i];
    var sameType := Compare.CompareBuffers(r.queryType, blob.blobType);
    if sameType.Err? {
      return Err(TypeLength(sameType.error));
    }
    if sameType.value != 0 {
      return Ok(false);
    }
    if mode == Full {
      ok := CheckFull(reading, items, o, block.prevHash, blob, r);
    } else {
      ok := Ok(ProofsVerify(o, blob.includes, r));
    }
  }

  /** validateQuery: false at the first result rejected. */
  method ValidateQuery(reading: Reading, items: Storage.Items, o: Oracles, block: BlockView, queries: Queries, mode: Mode)
    returns (ok: Result<bool, QueryError>)
    ensures ok == ValidateQuerySpec(reading, items, o, block, queries, mode)
  {
    if reading == Intended {
      var signed := ValidateQueriesSignature(o.signature, queries);
      if !signed {
        return Ok(false);
      }
    }
    ghost var check := CheckOf(reading, items, o, block, queries, mode);
    for i := 0 to |queries.results|
      invariant FirstFailure(check, 0, |queries.results|) == FirstFailure(check, i, |queries.results|)
    {
      var passed := CheckOne(reading, items, o, block, mode, queries.results[i], i);
      assert passed == check(i);
      if passed.Err? {
        return Err(passed.error);
      }
      if !passed.value {
        return Ok(false);
      }
    }
    return Ok(true);
  }

  /** Two loops whose checks agree give the same answer. */
  lemma {:induction false} FirstFailureSame<E>(check: nat -> Result<bool, E>, check': nat -> Result<bool, E>, from: nat, n: nat)
    requires forall i :: from <= i < n ==> check(i) == check'(i)
    ensures FirstFailure(check, from, n) == FirstFailure(check', from, n)
    decreases n - from
  {
    if from < n {
      FirstFailureSame(check, check', from + 1, n);
    }
  }

  /** All checks pass exactly when each of them answers true. */
  lemma {:induction false} FirstFailureAllPass<E>(check: nat -> Result<bool, E>, from: nat, n: nat)
    ensures FirstFailure(check, from, n) == Ok(true) <==> forall i :: from <= i < n ==> check(i) == Ok(true)
    decreases n - from
  {
    if from < n {
      FirstFailureAllPass(check, from + 1, n);
    }
  }

  /** The loop answers false exactly when some check answers false and
      every earlier one true. */
  lemma {:induction false} FirstFailureRejects<E>(check: nat -> Result<bool, E>, from: nat, n: nat)
    ensures FirstFailure(check, from, n) == Ok(false) <==>
              exists i :: from <= i < n && check(i) == Ok(false) && forall k :: from <= k < i ==> check(k) == Ok(true)
    decreases n - from
  {
    if from < n {
      FirstFailureRejects(check, from + 1, n);
      if check(from) == Ok(true) && FirstFailure(check, from, n) == Ok(false) {
        var i :| from + 1 <= i < n && check(i) == Ok(false) && forall k :: from + 1 <= k < i ==> check(k) == Ok(true);
        assert forall k :: from <= k < i ==> check(k) == Ok(true);
      }
    }
  }

  /** In the intended reading, a batch is accepted exactly when every
      transaction is signed and every result is accepted. */
  lemma IntendedAccepts(items: Storage.Items, o: Oracles, block: BlockView, queries: Queries, mode: Mode)
    ensures ValidateQuerySpec(Intended, items, o, block, queries, mode) == Ok(true) <==>
              && (forall i :: 0 <= i < |Transactions(queries)| ==> o.signature(Transactions(queries)[i]))
              && forall i :: 0 <= i < |queries.results| ==> CheckResult(Intended, items, o, block, mode, queries.results[i], i) == Ok(true)
  {
    var check := CheckOf(Intended, items, o, block, queries, mode);
    FirstFailureAllPass(check, 0, |queries.results|);
    assert forall i :: 0 <= i < |queries.results| ==> check(i) == CheckResult(Intended, items, o, block, mode, queries.results[i], i);
  }

  /** An accepted result has the type of its blob. In full mode it fills
      the blob: in the intended reading exactly, 20 transactions' worth of
      padding for every padding entry, with padding that verifies and a
      blob root equal to the root over its transactions. In partial mode
      every inclusion path verifies. */
  lemma AcceptedResult(reading: Reading, items: Storage.Items, o: Oracles, block: BlockView, mode: Mode, r: TypedQuery, i: nat)
    requires CheckResult(reading, items, o, block, mode, r, i) == Ok(true)
    ensures i < |block.blobs| && r.queryType == block.blobs[i].blobType
    ensures mode == Partial ==> ProofsVerify(o, block.blobs[i].includes, r)
    ensures mode == Full ==> |r.padding| * SMALL_PADDING_COEFF + |r.queries| >= NUMBER_OF_TRANSACTIONS
    ensures mode == Full ==> block.blobs[i].includes == Block.MerkleRoot(o.tree, Txs(r))
    ensures mode == Full && reading == Intended ==>
              && |r.padding| * SMALL_PADDING_COEFF + |r.queries| == NUMBER_OF_TRANSACTIONS
              && PaddingRecords.VerifyPaddingSpec(Intended, items, PADDING_SMALL, o.argon,
                                                  o.paddingHash(block.prevHash + r.queryType), PaddingCount(r), r.padding) == Ok(PaddingRecords.Valid)
  {
    var blob := block.blobs[i];
    Compare.BufferDiffCases(r.queryType, blob.blobType);
    if mode == Full {
      Compare.BufferDiffCases(blob.includes, Block.MerkleRoot(o.tree, Txs(r)));
      if reading == Intended {
        var hash := o.paddingHash(block.prevHash + r.queryType);
        var verdict := PaddingRecords.VerifyPaddingSpec(Intended, items, PADDING_SMALL, o.argon, hash, PaddingCount(r), r.padding);
        assert verdict == Ok(PaddingRecords.Valid);
        if PaddingCount(r) != |r.padding| as real {
          PaddingRecords.WrongCountRejected(Intended, items, PADDING_SMALL, o.argon, hash, PaddingCount(r), r.padding);
        }
        assert (|r.padding| * SMALL_PADDING_COEFF) as real == (NUMBER_OF_TRANSACTIONS - |r.queries|) as real;
      }
    }
  }

  /** A result whose type differs from its blob's (at the same length) is
      rejected. */
  lemma WrongTypeRejected(reading: Reading, items: Storage.Items, o: Oracles, block: BlockView, mode: Mode, r: TypedQuery, i: nat)
    requires i < |block.blobs| && |r.queryType| == |block.blobs[i].blobType| && r.queryType != block.blobs[i].blobType
    ensures CheckResult(reading, items, o, block, mode, r, i) == Ok(false)
  {
    Compare.BufferDiffCases(r.queryType, block.blobs[i].blobType);
  }

  /** As written the signatures are never consulted: two signature oracles
      give the same answer. */
  lemma AsWrittenIgnoresSignatures(items: Storage.Items, o: Oracles, signature: Bytes -> bool, block: BlockView, queries: Queries, mode: Mode)
    ensures ValidateQuerySpec(AsWritten, items, o, block, queries, mode)
            == ValidateQuerySpec(AsWritten, items, o.(signature := signature), block, queries, mode)
  {
    var check := CheckOf(AsWritten, items, o, block, queries, mode);
    var check' := CheckOf(AsWritten, items, o.(signature := signature), block, queries, mode);
    FirstFailureSame(check, check', 0, |queries.results|);
  }

  /** In the intended reading, a batch holding a transaction whose
      signature is invalid is rejected. */
  lemma IntendedRejectsUnsigned(items: Storage.Items, o: Oracles, block: BlockView, queries: Queries, mode: Mode, i: nat, j: nat)
    requires i < |queries.results| && j < |queries.results[i].queries|
    requires !o.signature(queries.results[i].queries[j].transaction)
    ensures ValidateQuerySpec(Intended, items, o, block, queries, mode) == Ok(false)
  {
    var rs := queries.results;
    TransactionsInOrder(rs, i, j);
    var before := AllTxs(rs[..i]);
    assert !o.signature(Transactions(queries)[|before| + j]);
  }

  /** As written, a full result with no queries and 20 padding entries
      passes the padding step although its padding count is 15: the "Wrong
      count" verdict is truthy. The intended reading rejects it. */
  lemma AsWrittenIgnoresPaddingCount(items: Storage.Items, o: Oracles, block: BlockView, r: TypedQuery)
    requires |block.blobs| == 1 && r.queryType == block.blobs[0].blobType && r.queries == [] && |r.padding| == 20
    requires Difficulty.GetDifficulty(items, PADDING_SMALL).Ok?
    requires block.blobs[0].includes == Block.MerkleRoot(o.tree, [])
    ensures CheckResult(AsWritten, items, o, block, Full, r, 0) == Ok(true)
    ensures CheckResult(Intended, items, o, block, Full, r, 0) == Ok(false)
  {
    Compare.BufferDiffCases(r.queryType, block.blobs[0].blobType);
    Compare.BufferDiffCases(block.blobs[0].includes, Block.MerkleRoot(o.tree, []));
    assert Txs(r) == [];
    var hash := o.paddingHash(block.prevHash + r.queryType);
    PaddingRecords.WrongCountRejected(AsWritten, items, PADDING_SMALL, o.argon, hash, PaddingCount(r), r.padding);
    PaddingRecords.WrongCountRejected(Intended, items, PADDING_SMALL, o.argon, hash, PaddingCount(r), r.padding);
  }

  // ---------------------------------------------------------------------
  // validateMultiBlockQuery

  /** The main blocks of the batches: each read from the store under its
      hash and decoded, in order. */
  function LoadBlocks(items: Storage.Items, decode: Bytes -> Option<BlockView>, multi: seq<Queries>, from: nat)
    : (r: Result<seq<BlockView>, QueryError>)
    ensures r.Ok? ==> |r.value| == if from >= |multi| then 0 else |multi| - from
    decreases |multi| - from
  {
    if from >= |multi| then Ok([])
    else
      match Storage.Lookup(items, Storage.BlockHashKey(multi[from].hash))
      case Some(Raw(bytes)) =>
        (match decode(bytes)
         case None => Err(BlockDecodeFailed)
         case Some(b) => Prepend([b], LoadBlocks(items, decode, multi, from + 1)))
      case _ => Err(MissingBlock(multi[from].hash))
  }

  /** The loop over the blocks, validating batch i against block i. */
  function MultiCheckOf(items: Storage.Items, o: Oracles, mains: seq<BlockView>, multi: seq<Queries>, mode: Mode)
    : nat -> Result<bool, QueryError>
  {
    (i: nat) => if i < |mains| && i < |multi| then ValidateQuerySpec(Intended, items, o, mains[i], multi[i], mode) else Ok(true)
  }

  /** validateMultiBlockQuery. As written the call to validateQuery is not
      awaited: its Promise is truthy, so once the blocks are loaded the
      answer is true. The intended reading awaits each batch's verdict. */
  function MultiBlockSpec(reading: Reading, items: Storage.Items, decode: Bytes -> Option<BlockView>, o: Oracles,
                          multi: seq<Queries>, mode: Mode): Result<bool, QueryError>
  {
    match LoadBlocks(items, decode, multi, 0)
    case Err(e) => Err(e)
    case Ok(mains) =>
      if reading == AsWritten then Ok(true)
      else FirstFailure(MultiCheckOf(items, o, mains, multi, mode), 0, |mains|)
  }

  /** The Promise.all reading and decoding the main blocks. */
  method ReadBlocks(store: Storage.Store, decode: Bytes -> Option<BlockView>, multi: seq<Queries>)
    returns (r: Result<seq<BlockView>, QueryError>)
    ensures r == LoadBlocks(store.items, decode, multi, 0)
  {
    var mains: seq<BlockView> := [];
    PrependConcat(mains, [], LoadBlocks(store.items, decode, multi, 0));
    for i := 0 to |multi|
      invariant LoadBlocks(store.items, decode, multi, 0) == Prepend(mains, LoadBlocks(store.items, decode, multi, i))
    {
      var text := store.GetItem(Storage.BlockHashKey(multi[i].hash));
      if !(text.Some? && text.value.Raw?) {
        return Err(MissingBlock(multi[i].hash));
      }
      var main := decode(text.value.bytes);
      if main.None? {
        return Err(BlockDecodeFailed);
      }
      PrependConcat(mains, [main.value], LoadBlocks(store.items, decode, multi, i + 1));
      mains := mains + [main.value];
    }
    PrependConcat<BlockView, QueryError>(mains, [], Ok([]));
    return Ok(mains);
  }

  method ValidateMultiBlockQuery(reading: Reading, store: Storage.Store, decode: Bytes -> Option<BlockView>, o: Oracles,
                                 multi: seq<Queries>, mode: Mode)
    returns (ok: Result<bool, QueryError>)
    ensures ok == MultiBlockSpec(reading, store.items, decode, o, multi, mode)
  {
    var loaded := ReadBlocks(store, decode, multi);
    if loaded.Err? {
      return Err(loaded.error);
    }
    var mains := loaded.value;
    if reading == AsWritten {
      return Ok(true);
    }
    ghost var check := MultiCheckOf(store.items, o, mains, multi, mode);
    for i := 0 to |mains|
      invariant FirstFailure(check, 0, |mains|) == FirstFailure(check, i, |mains|)
    {
      var valid := ValidateQuery(Intended, store.items, o, mains[i], multi[i], mode);
      assert valid == check(i);
      if valid.Err? {
        return valid;
      }
      if !valid.value {
        return Ok(false);
      }
    }
    return Ok(true);
  }

  /** Every batch's block is loaded exactly when each is stored and
      decodes. */
  lemma {:induction false} LoadBlocksCases(items: Storage.Items, decode: Bytes -> Option<BlockView>, multi: seq<Queries>, from: nat)
    ensures LoadBlocks(items, decode, multi, from).Ok? <==>
              forall i :: from <= i < |multi| ==>
                var v := Storage.Lookup(items, Storage.BlockHashKey(multi[i].hash));
                v.Some? && v.value.Raw? && decode(v.value.bytes).Some?
    ensures LoadBlocks(items, decode, multi, from).Ok? ==>
              forall i :: from <= i < |multi| ==>
                LoadBlocks(items, decode, multi, from).value[i - from]
                == decode(Storage.Lookup(items, Storage.BlockHashKey(multi[i].hash)).value.bytes).value
    decreases |multi| - from
  {
    if from < |multi| {
      LoadBlocksCases(items, decode, multi, from + 1);
    }
  }

  /** As written, once every block is loaded the batches are accepted
      whatever they hold. */
  lemma AsWrittenMultiAcceptsLoaded(items: Storage.Items, decode: Bytes -> Option<BlockView>, o: Oracles, multi: seq<Queries>, mode: Mode)
    requires LoadBlocks(items, decode, multi, 0).Ok?
    ensures MultiBlockSpec(AsWritten, items, decode, o, multi, mode) == Ok(true)
  {
  }

  /** In the intended reading the batches are accepted exactly when their
      blocks load and each batch is accepted against its own block. */
  lemma IntendedMultiAccepts(items: Storage.Items, decode: Bytes -> Option<BlockView>, o: Oracles, multi: seq<Queries>, mode: Mode)
    ensures MultiBlockSpec(Intended, items, decode, o, multi, mode) == Ok(true) <==>
              && LoadBlocks(items, decode, multi, 0).Ok?
              && forall i :: 0 <= i < |multi| ==>
                   ValidateQuerySpec(Intended, items, o, LoadBlocks(items, decode, multi, 0).value[i], multi[i], mode) == Ok(true)
  {
    var loaded := LoadBlocks(items, decode, multi, 0);
    if loaded.Ok? {
      var check := MultiCheckOf(items, o, loaded.value, multi, mode);
      FirstFailureAllPass(check, 0, |loaded.value|);
      assert forall i :: 0 <= i < |multi| ==>
               check(i) == ValidateQuerySpec(Intended, items, o, loaded.value[i], multi[i], mode);
    }
  }

  // ---------------------------------------------------------------------
  // validateQueriesContent: uniqueness

  /** groupBy(objs, key): the objects under each key, in order. */
  function GroupBy<T>(objs: seq<T>, key: T -> string): (grouped: map<string, seq<T>>)
    ensures forall k :: k in grouped ==> |grouped[k]| >= 1
  {
    if objs == [] then map[]
    else
      var g := GroupBy(objs[..|objs| - 1], key);
      var x := objs[|objs| - 1];
      g[key(x) := (if key(x) in g then g[key(x)] else []) + [x]]
  }

  /** Object.values(grouped).every(g => g.length === 1). */
  predicate EveryGroupSingle<T>(grouped: map<string, seq<T>>)
  {
    forall k :: k in grouped ==> |grouped[k]| == 1
  }

  /** No two objects share a key. */
  predicate DistinctKeys<T>(objs: seq<T>, key: T -> string)
  {
    forall i, j :: 0 <= i < j < |objs| ==> key(objs[i]) != key(objs[j])
  }

  /** The keys of groupBy are the keys of the objects. */
  lemma {:induction false} GroupByKeys<T>(objs: seq<T>, key: T -> string, k: string)
    ensures k in GroupBy(objs, key) <==> exists i :: 0 <= i < |objs| && key(objs[i]) == k
  {
    if objs != [] {
      var front := objs[..|objs| - 1];
      GroupByKeys(front, key, k);
      if exists i :: 0 <= i < |front| && key(front[i]) == k {
        var i :| 0 <= i < |front| && key(front[i]) == k;
        assert key(objs[i]) == k;
      }
      if exists i :: 0 <= i < |objs| && key(objs[i]) == k {
        var i :| 0 <= i < |objs| && key(objs[i]) == k;
        if i < |front| {
          assert key(front[i]) == k;
        }
      }
    }
  }

  /** Every group of groupBy holds one object exactly when no two objects
      share a key. */
  lemma {:induction false} GroupsSingleIffDistinct<T>(objs: seq<T>, key: T -> string)
    ensures EveryGroupSingle(GroupBy(objs, key)) <==> DistinctKeys(objs, key)
  {
    if objs != [] {
      var front := objs[..|objs| - 1];
      var x := objs[|objs| - 1];
      var g := GroupBy(front, key);
      GroupsSingleIffDistinct(front, key);
      GroupByKeys(front, key, key(x));
      if key(x) in g {
        assert |GroupBy(objs, key)[key(x)]| == |g[key(x)]| + 1;
        var i :| 0 <= i < |front| && key(front[i]) == key(x);
        assert key(objs[i]) == key(objs[|objs| - 1]);
      } else {
        assert objs[..|objs| - 1] == front;
        assert ([] + [x]) == [x];
        var g' := g[key(x) := [x]];
        assert GroupBy(objs, key) == g';
        if EveryGroupSingle(g) {
          forall k | k in g' ensures |g'[k]| == 1 {
            if k != key(x) {
              assert k in g;
            }
          }
        }
        if EveryGroupSingle(g') {
          forall k | k in g ensures |g[k]| == 1 {
            assert g'[k] == g[k];
          }
        }
        assert DistinctKeys(objs, key) <==> DistinctKeys(front, key) by {
          if DistinctKeys(front, key) {
            forall i, j | 0 <= i < j < |objs| ensures key(objs[i]) != key(objs[j]) {
              if j < |front| {
                assert key(front[i]) != key(front[j]);
              } else {
                assert key(front[i]) != key(x);
              }
            }
          }
          if DistinctKeys(objs, key) {
            forall i, j | 0 <= i < j < |front| ensures key(front[i]) != key(front[j]) {
              assert key(objs[i]) != key(objs[j]);
            }
          }
        }
      }
    }
  }

  /** The grouping key of an object: typedots' get at a path, as an object
      key. */
  function KeyAt<T>(get: (T, string) -> string, path: string): T -> string
  {
    (obj: T) => get(obj, path)
  }

  /** Each transaction decoded: messageType.fromBuffer, then the item
      schema (Promise.all over the queries). */
  function DecodeAll<T>(schema: Indexer.Schema<T>, txs: seq<Bytes>): (r: Result<seq<T>, QueryError>)
    ensures r.Ok? <==> forall j :: 0 <= j < |txs| ==> Indexer.Decoded(schema, txs[j]).Some?
    ensures r.Ok? ==> |r.value| == |txs| && forall j :: 0 <= j < |txs| ==> r.value[j] == Indexer.Decoded(schema, txs[j]).value
  {
    if forall j :: 0 <= j < |txs| ==> Indexer.Decoded(schema, txs[j]).Some?
    then Ok(seq(|txs|, j requires 0 <= j < |txs| => Indexer.Decoded(schema, txs[j]).value))
    else Err(ItemDecodeFailed)
  }

  /** The uniqueness part of validateQueriesContent for one result: false
      when two of its items share a value at one of the unique paths. */
  method UniqueContent<T>(schema: Indexer.Schema<T>, unique: seq<string>, get: (T, string) -> string, r: TypedQuery)
    returns (ok: Result<bool, QueryError>)
    ensures ok.Ok? <==> forall j :: 0 <= j < |r.queries| ==> Indexer.Decoded(schema, r.queries[j].transaction).Some?
    ensures ok.Ok? ==> (ok.value <==> forall p :: 0 <= p < |unique| ==> DistinctKeys(DecodeAll(schema, Txs(r)).value, KeyAt(get, unique[p])))
  {
    var objs := DecodeAll(schema, Txs(r));
    if objs.Err? {
      return Err(ItemDecodeFailed);
    }
    for p := 0 to |unique|
      invariant forall q :: 0 <= q < p ==> DistinctKeys(objs.value, KeyAt(get, unique[q]))
    {
      var grouped := GroupBy(objs.value, KeyAt(get, unique[p]));
      GroupsSingleIffDistinct(objs.value, KeyAt(get, unique[p]));
      if !EveryGroupSingle(grouped) {
        return Ok(false);
      }
    }
    return Ok(true);
  }

  // ---------------------------------------------------------------------
  // storeQueries

  /** The loop of storeQueries from result i on: pushItems of each
      result's transactions, in order, under the batch's block hash and
      index; a throw stops it. */
  function StoreResults<T>(items: Storage.Items, registry: Bytes -> Indexer.Schema<T>, queries: Queries, i: nat)
    : (Option<Indexer.IndexError>, Storage.Items)
    decreases |queries.results| - i
  {
    if i >= |queries.results| then (None, items)
    else
      var r := queries.results[i];
      var pushed := Indexer.PushFrom(items, registry(r.queryType), Txs(r), queries.hash, r.queryType, queries.index, 0);
      if pushed.0.Some? then pushed else StoreResults(pushed.1, registry, queries, i + 1)
  }

  /** storeQueries. */
  method StoreQueries<T>(store: Storage.Store, registry: Bytes -> Indexer.Schema<T>, queries: Queries)
    returns (failure: Option<Indexer.IndexError>)
    modifies store
    ensures (failure, store.items) == StoreResults(old(store.items), registry, queries, 0)
  {
    for i := 0 to |queries.results|
      invariant StoreResults(old(store.items), registry, queries, 0) == StoreResults(store.items, registry, queries, i)
    {
      var result := queries.results[i];
      var schema := registry(result.queryType);
      var items: seq<Bytes> := [];
      for j := 0 to |result.queries|
        invariant items == Txs(result)[..j]
      {
        items := items + [result.queries[j].transaction];
      }
      assert items == Txs(result);
      failure := Indexer.PushItems(store, schema, items, queries.hash, result.queryType, queries.index);
      if failure.Some? {
        return;
      }
    }
    return None;
  }

  /** Some result from i on holds transaction o. */
  predicate InResults(queries: Queries, o: Bytes, i: nat)
  {
    exists k :: i <= k < |queries.results| && o in Txs(queries.results[k])
  }

  /** Every transaction of every result is named by its type's schema. */
  predicate AllResultsNamed<T>(registry: Bytes -> Indexer.Schema<T>, queries: Queries, i: nat)
  {
    forall k :: i <= k < |queries.results| ==>
      Indexer.AllNamed(registry(queries.results[k].queryType), Txs(queries.results[k]), 0)
  }

  /** storeQueries of a batch whose items are all named completes, and
      files every transaction of every result under its item key with the
      batch's block hash and index; no other item key changes. */
  lemma {:induction false} StoreQueriesFiles<T>(items: Storage.Items, registry: Bytes -> Indexer.Schema<T>, queries: Queries, i: nat)
    requires Storage.CountersWellFormed(items)
    requires AllResultsNamed(registry, queries, i)
    ensures StoreResults(items, registry, queries, i).0 == None
    ensures Storage.CountersWellFormed(StoreResults(items, registry, queries, i).1)
    ensures forall o :: Storage.Lookup(StoreResults(items, registry, queries, i).1, Storage.ItemKey(o)) ==
              if InResults(queries, o, i) then Some(Storage.Meta(Storage.WithMetadata(queries.hash, queries.index, o)))
              else Storage.Lookup(items, Storage.ItemKey(o))
    decreases |queries.results| - i
  {
    if i < |queries.results| {
      var r := queries.results[i];
      Indexer.PushCounters(items, registry(r.queryType), Txs(r), queries.hash, r.queryType, queries.index);
      var pushed := Indexer.PushFrom(items, registry(r.queryType), Txs(r), queries.hash, r.queryType, queries.index, 0).1;
      StoreQueriesFiles(pushed, registry, queries, i + 1);
      forall o ensures InResults(queries, o, i) <==> o in Txs(r) || InResults(queries, o, i + 1) {
        if InResults(queries, o, i) {
          var k :| i <= k < |queries.results| && o in Txs(queries.results[k]);
          if k > i {
            assert InResults(queries, o, i + 1);
          }
        }
      }
    }
  }
}
