/** src/padding.ts: the padding records that fill a main block up to its
    capacity, and their verification.

    `paddingCount` is a JavaScript number compared with a BigInt loop
    counter, so it is modelled as a real; the mining of one record
    (computeDifficulty: several workers racing hashArgon) is the oracle
    `mine`, None when it yields undefined. */
module PaddingRecords {
  import opened Common
  import Compare
  import Argon
  import Hex
  import Difficulty
  import Storage
  import opened Serializer

  /** A padding entry in a block view: a decoded record or its encoding. */
  datatype PaddingEntry = Decoded(record: Padding) | Encoded(bytes: Bytes)

  /** The object verifyPadding returns: `{ success: true }`, or
      `{ success: false, message }`. */
  datatype Verdict = Valid | Rejected(message: string)

  datatype PaddingError =
    | EncodeFailed                             // paddingType.toBuffer throws: a field of the wrong size
    | MiningFailed                             // "Could not compute padding"
    | NoDifficulty(Difficulty.DifficultyError)  // getDifficulty throws
    | ReadsArray                               // TypeError: the hash of the array itself is undefined
    | DecodeFailed                             // paddingType.fromBuffer throws
    | HashLength(Compare.CompareError)         // compareBuffers throws
    | ArgonFailed(Argon.ArgonError)            // verifyArgon throws

  /** The number of loop iterations of `for (let i = 0n; i < count; i++)`:
      one for every natural number below count. */
  function Iterations(count: real): (n: nat)
    ensures count <= 0.0 ==> n == 0
    ensures count > 0.0 ==> (n - 1) as real < count <= n as real
  {
    if count <= 0.0 then 0 else -((-count).Floor)
  }

  // ---------------------------------------------------------------------
  // createPadding

  /** The record submitted for mining at index i. As written its difficulty
      is Buffer.from("0x1", "hex"), which stops at the "x" and is empty; the
      avsc fixed type needs DIFFICULTY_SIZE bytes. The intended record
      carries that many zero bytes, to be overwritten by the miner. */
  function Template(reading: Reading, i: int, hash: Bytes): (p: Padding)
    ensures p.index == i && p.hash == hash
    ensures reading == AsWritten ==> p.difficulty == []
    ensures reading == Intended ==> p.difficulty == seq(DIFFICULTY_SIZE, _ => 0)
  {
    Padding(i, if reading == AsWritten then [] else seq(DIFFICULTY_SIZE, _ => 0), hash)
  }

  /** One iteration: encode the template, mine it. */
  function MineOne(reading: Reading, i: int, hash: Bytes, mine: Bytes -> Option<Padding>): (r: Result<Padding, PaddingError>)
    ensures r.Ok? <==> ValidPadding(Template(reading, i, hash)) && mine(EncodePadding(Template(reading, i, hash))).Some?
    ensures r.Ok? ==> r.value == mine(EncodePadding(Template(reading, i, hash))).value
  {
    var template := Template(reading, i, hash);
    if !ValidPadding(template) then Err(EncodeFailed)
    else match mine(EncodePadding(template))
      case None => Err(MiningFailed)
      case Some(p) => Ok(p)
  }

  /** The records of iterations from, from + 1, ..., n - 1, or the error of
      the first one that fails. */
  function Paddings(reading: Reading, hash: Bytes, from: nat, n: nat, mine: Bytes -> Option<Padding>): (r: Result<seq<Padding>, PaddingError>)
    decreases n - from
  {
    if from >= n then Ok([])
    else match MineOne(reading, from, hash, mine)
      case Err(e) => Err(e)
      case Ok(p) =>
        match Paddings(reading, hash, from + 1, n, mine)
        case Err(e) => Err(e)
        case Ok(ps) => Ok([p] + ps)
  }

  /** createPadding. */
  method CreatePadding(reading: Reading, hash: Bytes, count: real, mine: Bytes -> Option<Padding>)
    returns (r: Result<seq<Padding>, PaddingError>)
    ensures r == Paddings(reading, hash, 0, Iterations(count), mine)
  {
    var paddings: seq<Padding> := [];
    var i: nat := 0;
    var n := Iterations(count);
    PrependStep([], Padding(0, [], []), Paddings(reading, hash, 0, n, mine));
    while (i as real) < count
      invariant i <= n
      invariant Paddings(reading, hash, 0, n, mine) == Prepend(paddings, Paddings(reading, hash, i, n, mine))
      decreases n - i
    {
      var padding := Template(reading, i, hash);
      if !ValidPadding(padding) {
        return Err(EncodeFailed);
      }
      var computed := mine(EncodePadding(padding));
      if computed.None? {
        return Err(MiningFailed);
      }
      PrependStep(paddings, computed.value, Paddings(reading, hash, i + 1, n, mine));
      paddings := paddings + [computed.value];
      i := i + 1;
    }
    assert paddings + [] == paddings;
    return Ok(paddings);
  }

  /** What Paddings yields: record i is the mined template i, and it fails
      exactly when some iteration fails. */
  lemma {:induction false} PaddingsContents(reading: Reading, hash: Bytes, from: nat, n: nat, mine: Bytes -> Option<Padding>)
    ensures Paddings(reading, hash, from, n, mine).Ok? <==>
              forall i :: from <= i < n ==> MineOne(reading, i, hash, mine).Ok?
    ensures Paddings(reading, hash, from, n, mine).Ok? ==>
              var ps := Paddings(reading, hash, from, n, mine).value;
              |ps| == if from >= n then 0 else n - from
    ensures Paddings(reading, hash, from, n, mine).Ok? ==>
              forall i :: from <= i < n ==>
                Paddings(reading, hash, from, n, mine).value[i - from] == MineOne(reading, i, hash, mine).value
    decreases n - from
  {
    if from < n {
      PaddingsContents(reading, hash, from + 1, n, mine);
    }
  }

  /** With a positive count the as-written template cannot be encoded, so
      createPadding always throws. */
  lemma CreatePaddingAlwaysThrows(hash: Bytes, count: real, mine: Bytes -> Option<Padding>)
    requires count > 0.0
    ensures Paddings(AsWritten, hash, 0, Iterations(count), mine) == Err(EncodeFailed)
  {
    assert !ValidPadding(Template(AsWritten, 0, hash));
  }

  /** With the intended template, a 32-byte hash and a count within the
      long range, every template encodes, so createPadding fails only when
      mining does. */
  lemma IntendedTemplatesEncode(hash: Bytes, count: real, mine: Bytes -> Option<Padding>)
    requires |hash| == HASH_SIZE && count <= TWO_63 as real
    ensures forall i :: 0 <= i < Iterations(count) ==> ValidPadding(Template(Intended, i, hash))
    ensures Paddings(Intended, hash, 0, Iterations(count), mine).Ok? <==>
              forall i :: 0 <= i < Iterations(count) ==> mine(EncodePadding(Template(Intended, i, hash))).Some?
  {
    var n := Iterations(count);
    assert n <= TWO_63;
    forall i | 0 <= i < n
      ensures ValidPadding(Template(Intended, i, hash))
      ensures MineOne(Intended, i, hash, mine).Ok? <==> mine(EncodePadding(Template(Intended, i, hash))).Some?
    {
      assert InLongRange(i);
    }
    PaddingsContents(Intended, hash, 0, n, mine);
  }

  // ---------------------------------------------------------------------
  // verifyPadding

  /** paddingType as an Argon codec: decoding is fromBuffer, encoding is
      toBuffer, which throws on a record whose fields do not have their
      declared sizes, and the miner overwrites the difficulty field. */
  function PaddingCodec(): Argon.Codec<Padding>
  {
    Argon.Codec(
      (bs: Bytes) => match PaddingFromBuffer(bs) case Ok(p) => Some(p) case Err(_) => None,
      (p: Padding) => if ValidPadding(p) then Some(EncodePadding(p)) else None,
      (p: Padding, d: Bytes) => p.(difficulty := d))
  }

  /** The miner writes Buffer.from(nonce.toString(16), "hex") into the 8-byte
      difficulty field, so a record encodes exactly for the nonces from 2^60
      up to 2^68. */
  lemma NonceEncodes(p: Padding, n: int)
    requires InLongRange(p.index) && |p.hash| == HASH_SIZE
    ensures Argon.Encodes(PaddingCodec(), p, n) <==> Hex.Pow16(15) <= n < Hex.Pow16(17)
  {
    Hex.EightByteNonces(n);
  }

  /** The intended search over padding never throws while its nonces stay
      from 2^60 up to 2^68. */
  lemma PaddingSearchTotal(argon: Bytes -> Bytes, p: Padding, start: int, attempts: nat, difficulty: int)
    requires InLongRange(p.index) && |p.hash| == HASH_SIZE
    requires Hex.Pow16(15) <= start && start + attempts < Hex.Pow16(17)
    ensures Argon.Search(Intended, PaddingCodec(), argon, p, start, attempts, difficulty).Ok?
  {
    forall n | start < n <= start + attempts
      ensures Argon.Encodes(PaddingCodec(), p, n)
    {
      NonceEncodes(p, n);
    }
    Argon.IntendedSearchTotal(PaddingCodec(), argon, p, start, attempts, difficulty);
  }

  /** A first nonce below 2^60 leaves a difficulty field shorter than 8
      bytes, and toBuffer throws before anything is hashed. */
  lemma SmallNonceThrows(reading: Reading, argon: Bytes -> Bytes, p: Padding, start: int, attempts: nat, difficulty: int)
    requires InLongRange(p.index) && |p.hash| == HASH_SIZE
    requires start + 1 < Hex.Pow16(15) && attempts > 0
    ensures Argon.Search(reading, PaddingCodec(), argon, p, start, attempts, difficulty) == Err(Argon.EncodeFailed)
  {
    NonceEncodes(p, start + 1);
    Argon.SearchStep(reading, PaddingCodec(), argon, p, start, attempts, difficulty);
  }

  /** A record that the intended search mines passes the intended
      verifyArgon of either padding category: its encoding decodes to the
      mined record itself, and its digest is below the difficulty. */
  lemma MinedPaddingVerifies(t: DifficultyType, argon: Bytes -> Bytes, p: Padding, start: int, attempts: nat, difficulty: int)
    requires t == PADDING_BIG || t == PADDING_SMALL
    requires Argon.Search(Intended, PaddingCodec(), argon, p, start, attempts, difficulty).Ok?
    requires Argon.Search(Intended, PaddingCodec(), argon, p, start, attempts, difficulty).value.Some?
    ensures var mined := Argon.Search(Intended, PaddingCodec(), argon, p, start, attempts, difficulty).value.value;
            && ValidPadding(mined)
            && Argon.VerifyArgon(Intended, t, PaddingCodec(), argon, EncodePadding(mined), difficulty) == Ok((true, mined))
  {
    var mined := Argon.Search(Intended, PaddingCodec(), argon, p, start, attempts, difficulty).value.value;
    assert PaddingCodec().toBuffer(mined).Some?;
    PaddingBufferRoundTrip(mined);
  }

  /** The record an entry stands for: itself, or its decoding. */
  function Converted(entry: PaddingEntry): (r: Result<Padding, PaddingError>)
    ensures entry.Decoded? ==> r == Ok(entry.record)
    ensures entry.Encoded? ==> (r.Ok? <==> PaddingFromBuffer(entry.bytes).Ok?)
    ensures entry.Encoded? && r.Ok? ==> r.value == PaddingFromBuffer(entry.bytes).value
  {
    match entry
    case Decoded(p) => Ok(p)
    case Encoded(bs) => match PaddingFromBuffer(bs) case Ok(p) => Ok(p) case Err(_) => Err(DecodeFailed)
  }

  /** The checks of one entry at index i, once the count is known to match.
      As written `Buffer.isBuffer(padding)` tests the array, so `converted`
      is the array and reading its `hash` gives undefined, on which
      compareBuffers throws. The intended reading decodes the entry itself;
      then the hash and the index are compared ("Malformed padding"), and
      the record is re-encoded and its proof of work checked ("Invalid
      difficulty"). As written the tuple verifyArgon returns is truthy, so
      the last test could never reject. */
  function CheckEntry(reading: Reading, t: DifficultyType, argon: Bytes -> Bytes, hash: Bytes,
                      difficulty: int, entry: PaddingEntry, i: int): (r: Result<Option<Verdict>, PaddingError>)
    ensures reading == AsWritten ==> r == Err(ReadsArray)
    ensures r.Ok? && r.value.Some? ==> r.value.value.Rejected?
  {
    if reading == AsWritten then Err(ReadsArray)
    else
      match Converted(entry)
      case Err(e) => Err(e)
      case Ok(p) =>
        match Compare.BufferDiff(p.hash, hash)
        case Err(e) => Err(HashLength(e))
        case Ok(diff) =>
          if diff != 0 || p.index != i then
            Ok(Some(Rejected("Malformed padding")))
          else if !ValidPadding(p) then Err(EncodeFailed)
          else
            match Argon.VerifyArgon(Intended, t, PaddingCodec(), argon, EncodePadding(p), difficulty)
            case Err(e) => Err(ArgonFailed(e))
            case Ok((passed, _)) =>
              if !passed then Ok(Some(Rejected("Invalid difficulty"))) else Ok(None)
  }

  /** An entry passes exactly when it is (or decodes to) a well-formed
      record for this hash at index i whose proof of work passes. */
  lemma EntryPasses(t: DifficultyType, argon: Bytes -> Bytes, hash: Bytes,
                    difficulty: int, entry: PaddingEntry, i: int)
    ensures CheckEntry(Intended, t, argon, hash, difficulty, entry, i) == Ok(None) <==>
              Converted(entry).Ok? &&
              (var p := Converted(entry).value;
               p.hash == hash && p.index == i && ValidPadding(p) &&
               Argon.VerifyArgon(Intended, t, PaddingCodec(), argon, EncodePadding(p), difficulty).Ok? &&
               Argon.VerifyArgon(Intended, t, PaddingCodec(), argon, EncodePadding(p), difficulty).value.0)
  {
    if Converted(entry).Ok? {
      Compare.BufferDiffCases(Converted(entry).value.hash, hash);
    }
  }

  /** The verdict of the first entry from index `from` on that rejects or
      throws under `check`, or None when all pass. */
  function FirstVerdict(check: (PaddingEntry, int) -> Result<Option<Verdict>, PaddingError>,
                        entries: seq<PaddingEntry>, from: nat): Result<Option<Verdict>, PaddingError>
    decreases |entries| - from
  {
    if from >= |entries| then Ok(None)
    else match check(entries[from], from)
      case Err(e) => Err(e)
      case Ok(Some(v)) => Ok(Some(v))
      case Ok(None) => FirstVerdict(check, entries, from + 1)
  }

  lemma {:induction false} FirstVerdictAllPass(check: (PaddingEntry, int) -> Result<Option<Verdict>, PaddingError>,
                                               entries: seq<PaddingEntry>, from: nat)
    ensures FirstVerdict(check, entries, from) == Ok(None) <==>
              forall i :: from <= i < |entries| ==> check(entries[i], i) == Ok(None)
    decreases |entries| - from
  {
    if from < |entries| {
      FirstVerdictAllPass(check, entries, from + 1);
    }
  }

  /** When every check can only reject, so can the loop. */
  lemma {:induction false} FirstVerdictRejects(check: (PaddingEntry, int) -> Result<Option<Verdict>, PaddingError>,
                                               entries: seq<PaddingEntry>, from: nat)
    requires forall e, i :: check(e, i).Ok? && check(e, i).value.Some? ==> check(e, i).value.value.Rejected?
    ensures FirstVerdict(check, entries, from).Ok? && FirstVerdict(check, entries, from).value.Some? ==>
              FirstVerdict(check, entries, from).value.value.Rejected?
    decreases |entries| - from
  {
    if from < |entries| {
      FirstVerdictRejects(check, entries, from + 1);
    }
  }

  /** The loop over entries from, from + 1, ...: CheckEntry on each. */
  function CheckEntries(reading: Reading, t: DifficultyType, argon: Bytes -> Bytes, hash: Bytes,
                        difficulty: int, entries: seq<PaddingEntry>, from: nat): (r: Result<Option<Verdict>, PaddingError>)
    ensures r.Ok? && r.value.Some? ==> r.value.value.Rejected?
  {
    FirstVerdictRejects((e, i) => CheckEntry(reading, t, argon, hash, difficulty, e, i), entries, from);
    FirstVerdict((e, i) => CheckEntry(reading, t, argon, hash, difficulty, e, i), entries, from)
  }

  /** verifyPadding as a function of the store holding the difficulty. */
  function VerifyPaddingSpec(reading: Reading, items: Storage.Items, t: DifficultyType, argon: Bytes -> Bytes,
                             hash: Bytes, count: real, entries: seq<PaddingEntry>): Result<Verdict, PaddingError>
  {
    match Difficulty.GetDifficulty(items, t)
    case Err(e) => Err(NoDifficulty(e))
    case Ok(difficulty) =>
      if count != |entries| as real then Ok(Rejected("Wrong count"))
      else match CheckEntries(reading, t, argon, hash, difficulty, entries, 0)
        case Err(e) => Err(e)
        case Ok(Some(v)) => Ok(v)
        case Ok(None) => Ok(Valid)
  }

  /** verifyPadding. */
  method VerifyPadding(reading: Reading, items: Storage.Items, t: DifficultyType, argon: Bytes -> Bytes,
                       hash: Bytes, count: real, entries: seq<PaddingEntry>)
    returns (r: Result<Verdict, PaddingError>)
    ensures r == VerifyPaddingSpec(reading, items, t, argon, hash, count, entries)
  {
    var diff := Difficulty.GetDifficulty(items, t);
    if diff.Err? {
      return Err(NoDifficulty(diff.error));
    }
    if count != |entries| as real {
      return Ok(Rejected("Wrong count"));
    }
    ghost var check := (e, i) => CheckEntry(reading, t, argon, hash, diff.value, e, i);
    ghost var whole := FirstVerdict(check, entries, 0);
    var i: nat := 0;
    while (i as real) < count
      invariant i <= |entries|
      invariant whole == FirstVerdict(check, entries, i)
      decreases |entries| - i
    {
      var step := CheckEntry(reading, t, argon, hash, diff.value, entries[i], i);
      assert step == check(entries[i], i);
      if step.Err? {
        return Err(step.error);
      }
      if step.value.Some? {
        return Ok(step.value.value);
      }
      i := i + 1;
    }
    return Ok(Valid);
  }

  /** The verdict is Valid exactly when every entry passes its checks. */
  lemma CheckEntriesAllPass(reading: Reading, t: DifficultyType, argon: Bytes -> Bytes, hash: Bytes,
                            difficulty: int, entries: seq<PaddingEntry>, from: nat)
    ensures CheckEntries(reading, t, argon, hash, difficulty, entries, from) == Ok(None) <==>
              forall i :: from <= i < |entries| ==> CheckEntry(reading, t, argon, hash, difficulty, entries[i], i) == Ok(None)
  {
    FirstVerdictAllPass((e, i) => CheckEntry(reading, t, argon, hash, difficulty, e, i), entries, from);
  }

  /** A count that is not the number of entries is rejected first; in
      particular a fractional count never verifies. */
  lemma WrongCountRejected(reading: Reading, items: Storage.Items, t: DifficultyType, argon: Bytes -> Bytes,
                           hash: Bytes, count: real, entries: seq<PaddingEntry>)
    requires Difficulty.GetDifficulty(items, t).Ok?
    requires count.Floor as real != count || count != |entries| as real
    ensures VerifyPaddingSpec(reading, items, t, argon, hash, count, entries) == Ok(Rejected("Wrong count"))
  {
  }

  /** A valid verdict means every entry is a well-formed record for this
      hash at its own index whose proof of work passes. */
  lemma ValidMeansWellFormed(reading: Reading, items: Storage.Items, t: DifficultyType, argon: Bytes -> Bytes,
                             hash: Bytes, count: real, entries: seq<PaddingEntry>, i: int)
    requires VerifyPaddingSpec(reading, items, t, argon, hash, count, entries) == Ok(Valid)
    requires 0 <= i < |entries|
    ensures reading == Intended && count == |entries| as real
    ensures CheckEntry(reading, t, argon, hash, Difficulty.GetDifficulty(items, t).value, entries[i], i) == Ok(None)
    ensures Converted(entries[i]).Ok?
    ensures var p := Converted(entries[i]).value;
            p.hash == hash && p.index == i && ValidPadding(p) &&
            Argon.VerifyArgon(Intended, t, PaddingCodec(), argon, EncodePadding(p), Difficulty.GetDifficulty(items, t).value).Ok? &&
            Argon.VerifyArgon(Intended, t, PaddingCodec(), argon, EncodePadding(p), Difficulty.GetDifficulty(items, t).value).value.0
  {
    var difficulty := Difficulty.GetDifficulty(items, t).value;
    var checked := CheckEntries(reading, t, argon, hash, difficulty, entries, 0);
    assert count == |entries| as real && checked == Ok(None) by {
      assert VerifyPaddingSpec(reading, items, t, argon, hash, count, entries) ==
               if count != |entries| as real then Ok(Rejected("Wrong count"))
               else match checked
                 case Err(e) => Err(e)
                 case Ok(Some(v)) => Ok(v)
                 case Ok(None) => Ok(Valid);
    }
    CheckEntriesAllPass(reading, t, argon, hash, difficulty, entries, 0);
    EntryPasses(t, argon, hash, difficulty, entries[i], i);
  }

  /** As written, any non-empty list of the right count throws, and only an
      empty list with a zero count verifies. */
  lemma AsWrittenVerifiesOnlyEmpty(items: Storage.Items, t: DifficultyType, argon: Bytes -> Bytes,
                                   hash: Bytes, count: real, entries: seq<PaddingEntry>)
    requires Difficulty.GetDifficulty(items, t).Ok?
    requires count == |entries| as real
    ensures entries == [] ==> VerifyPaddingSpec(AsWritten, items, t, argon, hash, count, entries) == Ok(Valid)
    ensures entries != [] ==> VerifyPaddingSpec(AsWritten, items, t, argon, hash, count, entries) == Err(ReadsArray)
  {
  }
}
