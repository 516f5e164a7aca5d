# Obichai ledger core in Dafny

This project models the core of the Obichai proof-of-work ledger. The core covers:

- the byte comparators;
- the sorted, index-suffixed Merkle leaves with their positive and negative proofs;
- the custom 64-bit long codec and the record layouts;
- the Argon2id mining loop and its verification;
- difficulty retargeting and the per-category thresholds;
- the padding records that fill unused block capacity;
- main-block validation, one block at a time, along a chain, and in parallel segments;
- the counter-indexed tables of the indexer;
- the freshness-proof block scan;
- the validation and storing of query batches.

Each module follows one source file:

| module | file | form |
|---|---|---|
| `Compare` | `src/utils.ts` and the private comparator of `src/merkle.ts` | methods proved against recursive functions |
| `Merkle` | `src/merkle.ts` | `CreateMerkle` sorts an `array` in place; the proofs are functions |
| `Serializer` | `src/serializer.ts` | functions: the long type, the Avro binary layouts of the records |
| `Hex` | the `toString(16)`, `padStart`, `Buffer.from(text, "hex")` and ``BigInt(`0x${buffer}`)`` conversions used by the files above | functions |
| `Argon` | `src/argon.ts` | a `Miner` class holding the module-level `running` flag |
| `Difficulty` | `src/difficulty.ts` | functions, plus a method that writes the store |
| `PaddingRecords` | `src/padding.ts` | loop methods proved against functions |
| `Block` | `src/block.ts` | loop methods proved against functions |
| `Storage` | the key/value store behind the indexer | a `Store` class holding a `map` |
| `Indexer` | `src/indexer.ts` | methods that update a `Store`, proved against functions of the map |
| `InclusionProof` | `src/proof.ts` | a loop method proved against a scan function |
| `QueryValidation` | `src/query.ts` | loop methods proved against functions |

Everything the core calls but does not define is a parameter of the member that uses it. This includes Argon2id, SHA-256, the merkletreejs tree and its path check, the Bloom filter, signature verification, the schema registry, typedots' `get` and record decoders. The keys that `sha256CompactKey` derives are constructors of `Storage.Key`, named by what they are computed from. The hash is therefore treated as collision-free.

Several functions take a `Reading`:

- `AsWritten` is what the source does;
- `Intended` is what it evidently means.

Where the two differ, a lemma shows the difference on a concrete input, and the corrected reading has its property proved (see "## Findings").

Three places in the code do not fit the code around them. The model follows the code as written:

- The one-sided negative-proof checks are swapped. `createMerkle` sorts the leaves in ascending order and appends the index to each one (`src/merkle.ts:21-26`). A proof that has only a left neighbour must therefore end at the last leaf, and one that has only a right neighbour at the first leaf. The code demands suffix 0 for the left-only case (`src/merkle.ts:97-98`) and suffix `NUMBER_OF_TRANSACTIONS - 1` for the right-only case (`src/merkle.ts:111-112`). `Merkle.VerifyProofFixed` swaps them back.
- The freshness scan in `src/proof.ts:26-41` collects negative proofs into `proofs`. It then ends without building a final positive proof and without returning anything.
- A blob's own proof of work is checked through `getArgon`. The block module imports it from `src/argon.ts` (`src/block.ts:1`), but that file exports only `hashArgon`, `verifyArgon` and `stopArgon`. The model makes the check the parameter `blobPow`. No SIDE threshold appears.

## Model

| member | source | states |
|---|---|---|
| Compare.CompareBuffers | src/utils.ts:3-13 | the loop returns the recursive difference; on success it is 0 exactly when the buffers are equal |
| Compare.CompareLocal | src/merkle.ts:12-19 | the loop without a length check returns the same walk, NaN where the second buffer runs out |
| Compare.DiffFromZero | src/utils.ts:7-12 | from index i on, the walk gives 0 exactly when the suffixes agree |
| Compare.EqualLengthZero | src/merkle.ts:12-19 | on equal lengths the result is 0 exactly when the buffers are equal |
| Compare.BufferDiffCases | src/utils.ts:4-12 | it throws exactly on a length mismatch and returns 0 exactly on equal buffers |
| Compare.DiffAtFirstDifference | src/utils.ts:8-10 | a nonzero result is a[k] - b[k] at the first differing index k, for both comparators |
| Compare.FirstDifferenceOf | src/utils.ts:8-10 | conversely, every nonzero result comes from a first differing index |
| Compare.SignIsLexOrder | src/utils.ts:7-12 | the sign matches an independent definition of lexicographic order on equal lengths |
| Compare.Antisymmetric | src/utils.ts:7-12 | compare(a, b) == -compare(b, a) on equal lengths |
| Compare.PrefixComparison | src/merkle.ts:12-19 | without the length check a proper prefix compares equal to the longer buffer, which compares NaN against it |
| Compare.Transitive | src/merkle.ts:12-19 | the comparator's order is transitive, strictly so when either step is strict |
| Compare.Total | src/merkle.ts:12-19 | any two buffers of equal length are ordered one way or the other |
| Hex.HexBuffer | src/difficulty.ts:41 | Buffer.from(n.toString(16), "hex") keeps half the digits (an odd last digit is dropped); a negative number gives an empty buffer |
| Hex.HexDigitsValue | src/difficulty.ts:41 | the digits of toString(16) read back as the number |
| Hex.OneByteEncoding | src/merkle.ts:6 | below 256, padStart(2) then Buffer.from(hex) yields exactly the one byte |
| Hex.EightByteNonces | src/argon.ts:27 | Buffer.from(n.toString(16), "hex") has the 8 bytes of a fixed(8) field exactly for 16^15 <= n < 16^17 |
| Hex.TextHexValueOf | src/argon.ts:37 | hex digit characters followed only by JavaScript white space (ASCII, U+00A0, U+1680, U+2000-200A, U+2028/9, U+202F, U+205F, U+3000, U+FEFF, in UTF-8) read as their value; any other trailing text throws |
| Hex.TrailingSpaces | src/argon.ts:37 | "0" followed by U+00A0 or U+2028 reads as 0, "0" followed by a NUL byte throws |
| Merkle.EncodeSmallValue | src/merkle.ts:6 | encodeValue of a position below 256 is that one byte |
| Merkle.LargePositionsCollide | src/merkle.ts:6 | positions 256 and 16 get the same suffix, and 299 gets 0x12 |
| Merkle.Insert | src/merkle.ts:22-23 | one insertion step of the stable sort adds exactly the inserted element (multiset) |
| Merkle.Sort | src/merkle.ts:22-23 | the sort is a permutation of its input |
| Merkle.SortSorted | src/merkle.ts:22-23 | on values of one length the sort is ascending in the comparator's order |
| Merkle.Leaves | src/merkle.ts:24-27 | one leaf per sorted value |
| Merkle.CreateMerkle | src/merkle.ts:21-34 | the caller's array is left sorted in place, the leaves are built from it, and the root is the tree's root over them |
| Merkle.CreateMerkleLeaves | src/merkle.ts:21-27 | for fewer than 256 values of 32 bytes, leaf i is sorted[i] followed by the byte i, and the leaves strictly ascend |
| Merkle.SmallLeaves | src/merkle.ts:24-27 | each leaf of fewer than 256 values of 32 bytes is 33 bytes long, with its position as the suffix |
| Merkle.SmallLeavesAscend | src/merkle.ts:24-27 | leaves of sorted values strictly ascend |
| Merkle.NearestRight | src/merkle.ts:59 | findIndex: -1 exactly when no leaf compares greater, otherwise the first leaf that does |
| Merkle.CreateNegativeProof | src/merkle.ts:53-71 | left-only with the last leaf when none is greater; right-only with leaf 0 when it is greater; otherwise both neighbours of the first greater leaf; `not` is always the hash; no proof over no leaves |
| Merkle.CreateProof | src/merkle.ts:73-77 | positive exactly when some leaf compares equal, otherwise the negative proof |
| Merkle.VerifiedNegativeLengths | src/merkle.ts:79-88 | an accepted negative proof has a 33-byte absent value and 33-byte side leaves |
| Merkle.LeftOnlyAccepted | src/merkle.ts:89-102 | a left-only proof is accepted exactly when the lengths are right, its path checks, its suffix is 0 and its leaf is below the absent value |
| Merkle.RightOnlyNeverAccepted | src/merkle.ts:103-116 | no right-only proof is accepted, since a one-byte suffix is never 299 |
| Merkle.BothAccepted | src/merkle.ts:117-132 | a two-sided proof is accepted exactly when the lengths are right, both paths check, the suffixes are adjacent and left < absent < right |
| Merkle.LeftOnlyAcceptsPresentValue | src/merkle.ts:97-98 | as written, a left-only proof vouches for the absence of a value that is a leaf |
| Merkle.FixedNegativeProofSound | src/merkle.ts:82-133 | with the one-sided checks corrected, an accepted negative proof's value is not a leaf |
| Merkle.FixedNegativeProofComplete | src/merkle.ts:73-77 | with the checks corrected, the proof createProof builds for an absent 33-byte value is negative and accepted |
| Serializer.LongToBuffer | src/serializer.ts:6-10 | toBuffer succeeds exactly in the signed 64-bit range and yields 8 bytes |
| Serializer.LongFromBuffer | src/serializer.ts:5 | fromBuffer succeeds exactly on 8 or more bytes and yields a number in the range |
| Serializer.LongRoundTrip | src/serializer.ts:5-10 | fromBuffer(toBuffer(n)) == n for every n in the range |
| Serializer.BufferRoundTrip | src/serializer.ts:5-10 | toBuffer(fromBuffer(b)) == b for every 8-byte buffer |
| Serializer.LongCompare | src/serializer.ts:14 | compare is negative, zero or positive exactly as n1 <, =, > n2 |
| Serializer.LongIsValid | src/serializer.ts:13 | isValid holds exactly for bigint values |
| Serializer.LongFieldRoundTrip | src/serializer.ts:39 | a long field decodes to its value and leaves the rest of the input |
| Serializer.FixedRoundTrip | src/serializer.ts:17-33 | a fixed field is its raw bytes and decodes back |
| Serializer.BytesRoundTrip | src/serializer.ts:53 | a bytes field decodes back |
| Serializer.PaddingRoundTrip | src/serializer.ts:35-43 | a Padding record decodes back, leaving the rest of the input |
| Serializer.PaddingLayout | src/serializer.ts:35-43 | fields in declared order: the 8 difficulty bytes after the index, the 32-byte hash last |
| Serializer.BlobHashRoundTrip | src/serializer.ts:45-55 | a BlobHash record decodes back |
| Serializer.BlobsRoundTrip | src/serializer.ts:65 | an array of BlobHash records decodes back |
| Serializer.MainBlockRoundTrip | src/serializer.ts:57-70 | a MainBlock record decodes back, leaving the rest of the input |
| Serializer.MainBlockBufferRoundTrip | src/serializer.ts:57-70 | mainBlockType.fromBuffer(toBuffer(m)) == m |
| Serializer.PaddingBufferRoundTrip | src/serializer.ts:35-43 | paddingType.fromBuffer(toBuffer(p)) == p |
| Serializer.ProofRoundTrip | src/serializer.ts:184-191 | a Proof record decodes back |
| Argon.DiffTypes | src/argon.ts:6-11 | the schema of each category; as written none for either padding category |
| Argon.DigestValue | src/argon.ts:37 | as written the digest's bytes are read as the text of a hexadecimal literal, trailing white space allowed; as intended as their big-endian value |
| Argon.Search | src/argon.ts:25-39 | a found record is the block with its difficulty field set to hex(k) for a nonce start < k <= start + attempts; it encodes, and its encoding hashes below the difficulty; a record the codec cannot encode throws |
| Argon.SearchFirst | src/argon.ts:26-27 | nonces are tried from start + 1 upwards one at a time; the first attempt that does not fail decides |
| Argon.SearchNone | src/argon.ts:41 | when every attempt fails the search returns nothing |
| Argon.IntendedSearchTotal | src/argon.ts:27-37 | under the intended digest reading the search never throws while every nonce it tries gives a record the codec can encode |
| Argon.Miner.constructor | src/argon.ts:13 | the flag starts cleared |
| Argon.Miner.StopArgon | src/argon.ts:62-64 | clears the flag |
| Argon.Miner.HashArgon | src/argon.ts:17-42 | sets the flag, throws without a schema, on a failed decode or on a record the schema cannot encode, otherwise returns the search over every attempt up to the stop; returning nothing leaves the flag cleared |
| Argon.Miner.Mine | src/argon.ts:25-41 | the loop equals the search function; returning nothing means the flag was cleared |
| Argon.VerifyArgon | src/argon.ts:44-60 | succeeds exactly when there is a schema, the input decodes and the digest is readable; hashes the input as given and answers digest < difficulty with the decoded record |
| Argon.PaddingHasNoSchema | src/argon.ts:6-11 | as written hashArgon and verifyArgon throw for a padding category |
| Argon.DigestReadAsText | src/argon.ts:37 | as written an all-zero digest throws and a digest of "0" characters counts as 0 |
| Storage.DecimalRoundTrip | src/indexer.ts:16-17 | the decimal text of a counter reads back as the counter |
| Storage.DecimalAsText | src/indexer.ts:16 | BigInt(text \|\| '0') reads a stored counter as its value |
| Storage.CounterRoundTrip | src/indexer.ts:16-17 | writing a counter and reading it back gives the number; other counters are untouched |
| Storage.Store.constructor | src/storage.ts:72-74 | a fresh store is empty |
| Storage.Store.GetItem | src/storage.ts:31-42 | returns the entry under the key, if any |
| Storage.Store.SetItem | src/storage.ts:66-70 | the store with the key set |
| Storage.Store.RemoveItem | src/storage.ts:62-65 | the store without the key |
| Difficulty.Coefficient | src/constants.ts:10-16 | MAIN 1, PADDING_BIG 2, SIDE 4, PADDING_SMALL 8, TRANSACTION 16 |
| Difficulty.GetDifficulty | src/difficulty.ts:13-16 | the stored number, or DEFAULT_DIFFICULTY when nothing (or the falsy 0) is stored |
| Difficulty.SetDifficulty | src/difficulty.ts:9-11 | stores the number under the category's name |
| Difficulty.SetThenGet | src/difficulty.ts:9-16 | what was set is read back, except that 0 reads as the default; the counters are untouched |
| Difficulty.DefaultIsAllOnes | src/constants.ts:8 | DEFAULT_DIFFICULTY is 16^64 - 1 |
| Difficulty.Intervals | src/difficulty.ts:19-31 | n timestamps give n - 1 consecutive differences |
| Difficulty.Ratios | src/difficulty.ts:22-28 | one ratio 60000 / interval per interval |
| Difficulty.RoundHalfUp | src/difficulty.ts:36 | the nearest integer, ties away from zero |
| Difficulty.Recompute | src/difficulty.ts:18-37 | throws on fewer than two timestamps and on a zero interval, and succeeds otherwise |
| Difficulty.ConstantIntervals | src/difficulty.ts:22-36 | with every interval d the result is the difficulty scaled by 60000 / d and rounded |
| Difficulty.SteadyBlocksKeepDifficulty | src/difficulty.ts:22-36 | intervals of 60000 ms keep the difficulty |
| Difficulty.FastBlocksDoubleDifficulty | src/difficulty.ts:22-36 | intervals of 30000 ms double it |
| Difficulty.LongerIntervalsNeverRaise | src/difficulty.ts:22-36 | lengthening positive intervals never raises the result |
| Difficulty.AddLimit | src/difficulty.ts:39-43 | succeeds exactly when the block decodes and the difficulty's buffer fills the 32-byte limit; only the limit changes |
| Difficulty.GetLimitFromBlock | src/difficulty.ts:45-49 | the limit of the decoded block read as a number, times the coefficient |
| Difficulty.LimitValue | src/difficulty.ts:47-48 | as written the limit's bytes are read as the text of a hexadecimal literal, trailing white space allowed, and a throw otherwise; as intended as their big-endian value; times the coefficient |
| Difficulty.AddLimitSucceeds | src/difficulty.ts:39-43 | a difficulty of 64 hexadecimal digits makes addLimit succeed, with that limit |
| Difficulty.ReadAddedLimit | src/difficulty.ts:39-49 | getLimitFromBlock of an added limit reads the difficulty's buffer |
| Difficulty.LimitRoundTrip | src/difficulty.ts:39-49 | as intended, the limit that addLimit writes reads back as the difficulty times the coefficient |
| Difficulty.DefaultLimitUnreadable | src/difficulty.ts:39-49 | as written the default limit's 32 bytes of 0xff make getLimitFromBlock throw; as intended they read back |
| Difficulty.DefaultLimitText | src/difficulty.ts:41 | the default difficulty has 64 hexadecimal digits, and its buffer is not hexadecimal text |
| PaddingRecords.Iterations | src/padding.ts:13 | the loop runs once for every natural number below the count |
| PaddingRecords.Template | src/padding.ts:14-18 | record i has index i and the context hash; as written an empty difficulty, as intended 8 zero bytes |
| PaddingRecords.MineOne | src/padding.ts:19-23 | an iteration succeeds exactly when the template encodes and mining returns a record, which it yields |
| PaddingRecords.CreatePadding | src/padding.ts:7-27 | the loop yields the records of the iterations in order, or the first failure |
| PaddingRecords.PaddingsContents | src/padding.ts:13-23 | record i is the mined template i; the whole fails exactly when some iteration fails |
| PaddingRecords.CreatePaddingAlwaysThrows | src/padding.ts:14-22 | as written, with a positive count, every call throws |
| PaddingRecords.IntendedTemplatesEncode | src/padding.ts:14-22 | as intended every template encodes, so createPadding fails only when mining does |
| PaddingRecords.Converted | src/padding.ts:43 | an entry stands for itself or for its decoding |
| PaddingRecords.CheckEntry | src/padding.ts:43-55 | as written every entry throws; an entry can only reject |
| PaddingRecords.EntryPasses | src/padding.ts:44-55 | as intended an entry passes exactly when it is a well-formed record for this hash at its own index whose proof of work passes |
| PaddingRecords.CheckEntries | src/padding.ts:42-56 | the loop's verdict, when there is one, is a rejection |
| PaddingRecords.CheckEntriesAllPass | src/padding.ts:42-57 | no verdict exactly when every entry passes |
| PaddingRecords.VerifyPadding | src/padding.ts:29-58 | the method equals the function of the store holding the difficulty |
| PaddingRecords.WrongCountRejected | src/padding.ts:36-41 | a count that is not the number of entries (a fractional count in particular) gives "Wrong count" first |
| PaddingRecords.ValidMeansWellFormed | src/padding.ts:29-58 | a Valid verdict means the intended reading, the right count, and every entry well formed for this hash at its index with a passing proof of work |
| PaddingRecords.AsWrittenVerifiesOnlyEmpty | src/padding.ts:42-57 | as written only an empty list with count 0 verifies; any other list of the right count throws |
| PaddingRecords.NonceEncodes | src/argon.ts:27-29 | the fixed(8) difficulty field of a padding record encodes exactly for nonces from 16^15 up to 16^17 |
| PaddingRecords.PaddingSearchTotal | src/argon.ts:25-39 | the intended search over a padding record never throws while its nonces stay in that range |
| PaddingRecords.SmallNonceThrows | src/argon.ts:26-29 | a search whose first nonce is below 16^15 throws, under either reading |
| PaddingRecords.MinedPaddingVerifies | src/argon.ts:44-59 | a padding record that the intended search mines is well formed, and verifying its encoding accepts it and returns that record |
| Block.PaddingCount | src/block.ts:69 | (10 - blobs) / 5 as an exact number |
| Block.BlobsPass | src/block.ts:81-87 | every blob's proof of work passes |
| Block.MainDifficulty | src/block.ts:59-89 | a block that does not decode throws; a supplied prevHash of the wrong length throws and one of the right length that differs rejects; a truthy prevId that is not id - 1 rejects; an accepted block decodes, passes verifyArgon at the stored MAIN difficulty with its decoded record, fills capacity, has a padding verdict (Valid under the intended reading) and blobs that pass; only the intended reading returns the block's digest |
| Block.ValidateMainDifficulty | src/block.ts:59-89 | the method equals the function |
| Block.ValidateMainsDifficulty | src/block.ts:91-106 | the loop equals the chain fold starting without a previous hash or id |
| Block.ChainLinks | src/block.ts:91-106 | as intended, an accepted chain links each block to its predecessor's digest and id (except after an id of 0) |
| Block.ExampleBlockAccepted | src/block.ts:59-89 | a concrete block that as written passes every check |
| Block.ChainIgnoresPrevHash | src/block.ts:70 | as written a chain whose prevHash does not match is accepted; the intended chain rejects it |
| Block.StartSplit | src/block.ts:115-120 | a new split after a full one keeps the partition's shape |
| Block.Extended | src/block.ts:121-123 | appending to a short last split keeps the shape |
| Block.Partition | src/block.ts:113-126 | the splits concatenate to the blocks, none is empty, all but the last hold splitBy blocks, none more; at most one when splitBy is not a positive integer |
| Block.SplitStarts | src/block.ts:113-126 | with splitBy n, split i starts at block i * n |
| Block.CheckBoundaries | src/block.ts:127-135 | the boundary loop equals the boundary fold over each pair (last of split i - 1, first of split i) |
| Block.CheckSegments | src/block.ts:136 | true exactly when every segment validator accepts its split |
| Block.ParallelValidation | src/block.ts:108-137 | the splits concatenate to the blocks, are non-empty and all but the last hold splitBy blocks; a failing boundary decides before any segment does; once the boundaries pass the verdict is whether every segment passes |
| Block.Manufacture | src/block.ts:13-51 | id = prev.id + 1, the previous digest, one blob per result in order, an empty limit and difficulty, and the padding createPadding mines for (10 - blobs) / 5 |
| Block.FractionalPaddingCount | src/block.ts:21 | unless the blob count is a multiple of 5 the padding count is fractional and the padding loop runs one time more than it |
| Block.ManufacturedPaddingRejected | src/block.ts:21-47 | such a manufactured block's padding gets "Wrong count" from the intended verifyPadding |
| Indexer.IncrementKey | src/indexer.ts:15-19 | the method equals incrementKey as a function of the store |
| Indexer.DecrementKey | src/indexer.ts:21-28 | the method equals decrementKey as a function of the store |
| Indexer.IncrementSpec | src/indexer.ts:15-19 | returns the stored counter (0 when absent), stores one more, and leaves every other key as it was |
| Indexer.DecrementSpec | src/indexer.ts:21-28 | throws exactly at 0 leaving the store; otherwise returns the counter and stores one less; other keys untouched |
| Indexer.IncrementThenDecrement | src/indexer.ts:15-28 | a decrement undoes an increment |
| Indexer.PushItems | src/indexer.ts:52-96 | the loop equals pushItems as a function of the store |
| Indexer.PushStepShape | src/indexer.ts:61-94 | one named item raises its three counters and files itself in the three slots numbered by the old counters |
| Indexer.PushStepCounters | src/indexer.ts:80-88 | one item throws exactly when it has no latest-key, leaving the store; otherwise it raises each of its counters by one |
| Indexer.PushStepWrites | src/indexer.ts:89-94 | one item writes its own key and its three slots, and nothing below any counter |
| Indexer.SharedHits | src/indexer.ts:74-79 | every item raises the counters of its block and of its index |
| Indexer.PushSucceeds | src/indexer.ts:61-94 | pushItems completes exactly when every item has a latest-key |
| Indexer.PushRaises | src/indexer.ts:80-88 | each counter rises by the number of items filed under it |
| Indexer.PushFilesItems | src/indexer.ts:63-90 | each item is filed under its own key with its block hash and index |
| Indexer.PushCounters | src/indexer.ts:61-94 | completes exactly when every item is named; then each counter rises by its hits, and exactly the pushed items' keys change |
| Indexer.PushKeepsLowSlots | src/indexer.ts:89-94 | no slot below its counter is written |
| Indexer.PushFillsSlots | src/indexer.ts:61-94 | item k lands in slot c + k of the block counter and of the index counter |
| Indexer.PushedKeepsTidy | src/indexer.ts:61-94 | one pushed item keeps the store's shape |
| Indexer.PushKeepsTidy | src/indexer.ts:61-94 | pushItems keeps the store's shape, whether or not it throws |
| Indexer.PopOne | src/indexer.ts:108-134 | the body of popItems' loop equals one pop step |
| Indexer.PopItems | src/indexer.ts:98-136 | the loop equals popItems as a function of the store |
| Indexer.PopStepSpec | src/indexer.ts:120-128 | one popped item lowers each of its three counters by one |
| Indexer.PopStepShape | src/indexer.ts:108-134 | one pop lowers the counters and removes the item key and the three slots of its reading |
| Indexer.PopCounters | src/indexer.ts:107-135 | popItems lowers each counter by the number of entries filed under it |
| Indexer.PushThenPopRestoresCounters | src/indexer.ts:80-128 | popItems over the entries of the items pushItems filed restores every counter, in either reading |
| Indexer.PopUndoesPush | src/indexer.ts:107-135 | as intended, popping the item just pushed gives back every key and counter and keeps the shape |
| Indexer.PopAsWrittenLeavesSlots | src/indexer.ts:112-133 | as written the slot the item was filed in survives the pop, and the store loses its shape |
| Indexer.GetItems | src/indexer.ts:219-236 | the method equals the read of slots 0 .. counter - 1 |
| Indexer.GetSlot | src/indexer.ts:223-233 | one promise of getItems equals the read of that slot |
| Indexer.GetItemsByIndex | src/indexer.ts:238-243 | getItems under the index key |
| Indexer.GetItemsByBlock | src/indexer.ts:245-250 | getItems under the block key |
| Indexer.ReadTransactionCases | src/indexer.ts:227-232 | an item is kept exactly when its recipient matches the type's prefix and its data decodes, and dropped exactly when the recipient fits and differs |
| Indexer.PushThenGetItems | src/indexer.ts:219-235 | after a push into a fresh counter, getItems returns exactly the kept transactions in push order |
| Indexer.LatestItem | src/indexer.ts:197-217 | a latest item found carries the latest-key of the query |
| Indexer.GetLatestItem | src/indexer.ts:197-217 | the method equals the function |
| Indexer.LatestAfterPush | src/indexer.ts:206-209 | as intended, a query with the pushed item's latest-key right after the push yields that item with its index |
| Indexer.LatestAsWrittenMissesPush | src/indexer.ts:206-208 | as written the same query reads the slot one past the one just filled and throws |
| Indexer.PrevHashes | src/indexer.ts:141-144 | one prevHash per block from i on |
| Indexer.PrevHashesIndexed | src/indexer.ts:141-144 | succeeds exactly when every block decodes; entry k - i is the prevHash of block k |
| Indexer.BlockHashes | src/indexer.ts:138-147 | as many hashes as blocks |
| Indexer.GetBlockHashes | src/indexer.ts:138-147 | the loop equals the function |
| Indexer.BlockHashesIndexed | src/indexer.ts:138-147 | succeeds exactly when there are blocks and every one after the first decodes; entry i is the prevHash of block i + 1, and the last the hash of the last block |
| Indexer.ChainedBlockHashes | src/indexer.ts:138-147 | on a linked chain, entry i is the hash of block i |
| Indexer.StoreMainBlocks | src/indexer.ts:149-164 | the loop equals storeMainBlocks as a function of the store |
| Indexer.StoreBlocksKeeps | src/indexer.ts:152-157 | a key no block writes keeps its entry |
| Indexer.StoreBlocksFiles | src/indexer.ts:152-157 | each block's id key refers to its hash and its hash key holds it; keys of other kinds are unchanged |
| Indexer.StoreThenGetBlock | src/indexer.ts:149-170 | after storeMainBlocks, getBlockById of each id yields its block |
| InclusionProof.FindBlobFinds | src/proof.ts:29 | the blob found has the type; on equal type lengths nothing throws and none is found exactly when no blob has the type |
| InclusionProof.Indexes | src/proof.ts:32 | one index per item |
| InclusionProof.CreateInclusionProof | src/proof.ts:12-41 | the method equals the latest lookup followed by the scan |
| InclusionProof.ScanFrom | src/proof.ts:27-39 | the loop over block ids equals the scan |
| InclusionProof.ProveAt | src/proof.ts:28-38 | one iteration equals the step function |
| InclusionProof.ScanSucceeds | src/proof.ts:27 | the scan succeeds exactly when every block id from blockIndex + 1 up to currentIndex does |
| InclusionProof.ScanCollects | src/proof.ts:37 | the proofs are one per block that yields one, in block order |
| InclusionProof.ScanFailsFirst | src/proof.ts:34-36 | a failed scan fails with the error of the first block that fails |
| InclusionProof.StepCases | src/proof.ts:29-36 | a block is skipped exactly when it has no blob of the type or the Bloom check says no; it yields the negative proof or throws on a positive one |
| InclusionProof.MerkleStep | src/proof.ts:33-36 | with createMerkleProof as createMerkle then createProof, a flagged block throws exactly when a leaf equals the key, and every proof it yields is about the key |
| InclusionProof.ScanProvesAbsence | src/proof.ts:33-37 | every proof the scan collects is about the latest-key |
| QueryValidation.Txs | src/query.ts:114 | the transactions of a result, in order |
| QueryValidation.ValidateQueriesSignature | src/query.ts:86-97 | true exactly when every transaction of every result is signed |
| QueryValidation.TransactionsInOrder | src/query.ts:89 | flatMap places query j of result i after the transactions of the results before it |
| QueryValidation.PaddingCount | src/query.ts:110 | (300 - queries) / 20 as an exact number |
| QueryValidation.CheckFull | src/query.ts:116-126 | the full-mode part of an iteration equals its function |
| QueryValidation.CheckOne | src/query.ts:108-131 | one iteration equals its function |
| QueryValidation.ValidateQuery | src/query.ts:99-134 | the loop equals validateQuery as a function |
| QueryValidation.FirstFailureAllPass | src/query.ts:107-133 | the loop answers true exactly when every check does |
| QueryValidation.FirstFailureRejects | src/query.ts:107-133 | the loop answers false exactly when some check does and every earlier one passes |
| QueryValidation.IntendedAccepts | src/query.ts:99-134 | as intended a batch is accepted exactly when every transaction is signed and every result is accepted |
| QueryValidation.AcceptedResult | src/query.ts:108-131 | an accepted result has its blob's type; in partial mode every path verifies; in full mode it fills the blob, its root is the blob's, and as intended its padding count is exact and its padding is Valid |
| QueryValidation.WrongTypeRejected | src/query.ts:111-113 | a result whose type differs from its blob's is rejected |
| QueryValidation.AsWrittenIgnoresSignatures | src/query.ts:104 | as written the signatures are never consulted |
| QueryValidation.IntendedRejectsUnsigned | src/query.ts:104 | as intended an unsigned transaction rejects the batch |
| QueryValidation.AsWrittenIgnoresPaddingCount | src/query.ts:121 | as written a full result with a wrong padding count passes; as intended it is rejected |
| QueryValidation.LoadBlocks | src/query.ts:138-139 | one block per batch |
| QueryValidation.ReadBlocks | src/query.ts:138-139 | the reads equal the function |
| QueryValidation.LoadBlocksCases | src/query.ts:138-139 | the blocks load exactly when each is stored and decodes, in batch order |
| QueryValidation.ValidateMultiBlockQuery | src/query.ts:136-146 | the method equals the function |
| QueryValidation.AsWrittenMultiAcceptsLoaded | src/query.ts:141 | as written, once the blocks load the answer is true |
| QueryValidation.IntendedMultiAccepts | src/query.ts:140-145 | as intended true exactly when the blocks load and each batch is accepted against its own block |
| QueryValidation.GroupBy | src/query.ts:59 | no group is empty |
| QueryValidation.GroupByKeys | src/query.ts:59 | the group keys are exactly the objects' keys |
| QueryValidation.GroupsSingleIffDistinct | src/query.ts:59-60 | every group holds one object exactly when no two objects share a key |
| QueryValidation.DecodeAll | src/query.ts:53-56 | succeeds exactly when every transaction decodes, giving the decodings in order |
| QueryValidation.UniqueContent | src/query.ts:53-63 | succeeds exactly when every item decodes; then true exactly when no two items share a value at any unique path |
| QueryValidation.StoreQueries | src/query.ts:15-38 | the loop equals pushItems of each result's transactions in order |
| QueryValidation.StoreQueriesFiles | src/query.ts:19-37 | with every item named it completes and files each transaction with the batch's hash and index; no other item key changes |

## Left out

- Argon2id, SHA-256, `sha256CompactKey`, base64, the merkletreejs tree and path check, the Bloom filter, `verifySignature`, the schema registry `getType`, typedots' `get`, and the decoders of records whose layout is not modelled are all parameters. Their algorithms are outside the core.
- `src/storage.ts`: the localforage driver and the network lookup on a missed read are not modelled. The store is a map.
- Concurrency: each `Promise.all` is modelled as running in order. The three counter updates of one pushed or popped item use distinct keys, so their order does not matter.
- `computeDifficulty` with its worker race (`src/difficulty.ts:51-65`, `src/pool.ts`, `src/worker.ts`): where the core mines, a `mine` parameter stands for "some worker returns a record". `verifyDifficulty` (`src/difficulty.ts:67-70`) is `Argon.VerifyArgon` at the stored difficulty.
- Argon.Miner.HashArgon: the `stopArgon` call that another caller makes is the parameter `stopAfter`, the number of attempts before the flag is cleared.
- The libp2p network, the wallet, the rule and jexl evaluators and the ajv validator are outside the core.
- `validateQueriesContent` beyond the uniqueness check: its later loop calls `isMessageValid`, which `src/validator.ts` does not define.
- `getBlock`, `getItemByHash`, `getSmallPadding` and `storeSmallPadding` are not modelled. `getBlockById` appears only as `Indexer.BlockById`, and the read of "latestBlock" in `storeMainBlocks`, whose branch is empty, is left out.
- `makeIndex` is the schema's latest-key naming (`Indexer.LatestName`), because its key is a SHA-256 digest.
- InclusionProof.CreateInclusionProof: the source collects the proofs and then returns nothing; the model returns what it collects.
- `verifyInclusionProof` (`src/proof.ts:8-10`), `manufactureQuery` and `manufactureQueries` (`src/query.ts:148-154`) have empty bodies.
- BigNumber's rounding of quotients to 20 decimal places: the model uses exact reals, so the retarget lemmas hold for intervals that divide exactly.
- The `toJSON` and `fromJSON` conversions of the long type are not modelled.
- The declared schemas and the code that reads them disagree. The codec models the declarations; the validators model the fields the code reads, through decoder parameters:
  - `mainBlockType` declares `padding` as one record and `merkle` as one hash, while the code reads `padding.length` and `blob.merkle.includes`;
  - `typedQueries` declares `padding` as a long;
  - `queriesType` has no `hash` or `index`.
- `getItems`: a throw inside one of its promises leaves `Promise.all` unsettled forever. The model returns an error instead.
- Indexer.PushThenGetItems: stated for a counter that was 0 before the push, so that the slots read back are exactly the pushed ones.
- The random start that `computeDifficulty` draws from [0, 2^64) (`src/difficulty.ts:57`) is a parameter. A start below 16^15 - 1 makes the first fixed(8) encode throw (`PaddingRecords.SmallNonceThrows`).
- Storage.CounterText: models only the empty text and plain decimal digits, which is what the ledger writes. BigInt also accepts surrounding white space, a sign and a 0x/0o/0b prefix, and the model reads those texts as a throw.
- Merkle.CreateMerkleLeaves: stated for fewer than 256 values, since larger positions collide (`Merkle.LargePositionsCollide`).

## Findings

| source | as written | input that shows it | evidently intended | confidence | as-written member | corrected member |
|---|---|---|---|---|---|---|
| src/merkle.ts:97-98 | a left-only proof must carry suffix 0, and a right-only proof suffix 299 | two leaves; a left-only proof whose left leaf is leaf 0 and whose absent value is leaf 1 is accepted | a left-only proof shows the last slot and a right-only proof the first | not executed | Merkle.LeftOnlyAcceptsPresentValue | Merkle.FixedNegativeProofSound |
| src/padding.ts:43 | each entry is read from `padding`, the whole array, and `.hash` of it is undefined | any non-empty list with the right count throws | read `padding[i]` | not executed | PaddingRecords.AsWrittenVerifiesOnlyEmpty | PaddingRecords.ValidMeansWellFormed |
| src/query.ts:121 | the verdict object of `verifyPadding` is taken as a truth value, so it never rejects (likewise `src/block.ts:78`) | a full result with no queries and 20 padding entries against a count of 15 | reject unless the verdict is a success | not executed | QueryValidation.AsWrittenIgnoresPaddingCount | QueryValidation.AcceptedResult |
| src/query.ts:104 | `validateQueriesSignature` is not awaited; its Promise is truthy | a batch holding an unsigned transaction | await the check | not executed | QueryValidation.AsWrittenIgnoresSignatures | QueryValidation.IntendedRejectsUnsigned |
| src/query.ts:141 | `validateQuery` is not awaited; its Promise is truthy | any batches whose blocks load | await each verdict | not executed | QueryValidation.AsWrittenMultiAcceptsLoaded | QueryValidation.IntendedMultiAccepts |
| src/block.ts:70 | three names are taken from the pair `verifyArgon` returns, so the hash is undefined and later blocks are checked without a prevHash | two blocks whose prevHash does not match the first block's digest | return the block's digest as its hash | not executed | Block.ChainIgnoresPrevHash | Block.ChainLinks |
| src/argon.ts:37 | ``BigInt(`0x${hashValue}`)`` reads the digest's bytes as text | an all-zero digest throws; a digest of "0" characters counts as 0 | the digest's numeric value | not executed | Argon.DigestReadAsText | Argon.IntendedSearchTotal |
| src/argon.ts:6-11 | `diffTypes` has a key PADDING and none for PADDING_BIG or PADDING_SMALL | mining or verifying any padding record | map both padding categories to the Padding schema | not executed | Argon.PaddingHasNoSchema | PaddingRecords.MinedPaddingVerifies |
| src/indexer.ts:206-207 | getLatestItem reads the slot numbered by the counter, one past the last filled | a query right after one push | read slot counter - 1 | not executed | Indexer.LatestAsWrittenMissesPush | Indexer.LatestAfterPush |
| src/indexer.ts:130-133 | popItems removes the key hashed from the metadata entry and the slots numbered before the decrement | popping the entry of an item just pushed | remove the item's own key and the last filled slots | not executed | Indexer.PopAsWrittenLeavesSlots | Indexer.PopUndoesPush |
| src/difficulty.ts:47 | the limit's bytes are interpolated as text | the default limit, 32 bytes of 0xff, throws | read the limit's big-endian value | not executed | Difficulty.DefaultLimitUnreadable | Difficulty.LimitRoundTrip |
| src/padding.ts:14-18 | the template's difficulty is `Buffer.from("0x1", "hex")`, an empty buffer, which the 8-byte fixed field cannot encode | any positive count | a template with 8 difficulty bytes | not executed | PaddingRecords.CreatePaddingAlwaysThrows | PaddingRecords.IntendedTemplatesEncode |
