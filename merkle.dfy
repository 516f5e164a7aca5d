/** src/merkle.ts: Merkle trees over sorted, index-suffixed leaves, with
    positive (inclusion) and negative (non-inclusion) proofs.

    The tree itself, its root, the inclusion paths and their check are
    merkletreejs with SHA-256; the model receives them as a Tree of oracles. */
module Merkle {
  import opened Common
  import opened Compare
  import Hex

  const NUMBER_OF_TRANSACTIONS: nat := 300
  const BYTE_LENGTH_TRANSACTION_COUNT: nat := 1
  const HASH_LENGTH_WITH_INDEX: nat := 33

  datatype Position = Left | Right

  /** One step of an inclusion path (types.ts ProofPart). */
  datatype ProofPart = ProofPart(position: Position, data: Bytes)

  type Path = seq<ProofPart>

  /** A leaf together with its inclusion path (types.ts SubNegation). */
  datatype SubNegation = SubNegation(proof: Path, leaf: Bytes)

  /** types.ts NegativeProof: at least one neighbour, and the absent value. */
  datatype NegativeProof =
    | LeftOnly(left: SubNegation, not: Bytes)
    | RightOnly(right: SubNegation, not: Bytes)
    | Both(left: SubNegation, right: SubNegation, not: Bytes)

  /** types.ts EitherProof. */
  datatype EitherProof =
    | Positive(proof: Path, leaf: Bytes)
    | Negative(negative: NegativeProof)

  /** merkletreejs as used here (SHA-256, sortPairs: false): the root of the
      tree over some leaves, the inclusion path of a leaf, and the static
      path check MerkleTree.verify(path, leaf, root). */
  datatype Tree = Tree(
    root: seq<Bytes> -> Bytes,
    getProof: (seq<Bytes>, Bytes) -> Path,
    verify: (Path, Bytes, Bytes) -> bool)

  datatype MerkleError = NoLastLeaf

  // ---------------------------------------------------------------------
  // Leaves

  /** encodeValue: value.toString(16).padStart(2, "0") read as hex. */
  function EncodeValue(value: nat): Bytes
  {
    Hex.HexToBytes(Hex.PadStart(Hex.HexDigits(value), BYTE_LENGTH_TRANSACTION_COUNT * 2))
  }

  /** Below 256 the suffix is the one byte holding the position. */
  lemma EncodeSmallValue(value: nat)
    requires value < 256
    ensures EncodeValue(value) == [value]
  {
    Hex.OneByteEncoding(value);
  }

  /** From 256 on, "100", "12b", ... have an odd number of digits and
      Buffer.from drops the last one: positions 256 and 16 get the same
      suffix, and position 299 gets 0x12. */
  lemma LargePositionsCollide()
    ensures EncodeValue(256) == EncodeValue(16) == [16]
    ensures EncodeValue(299) == [0x12]
  {
    assert Hex.HexDigits(1) == [1];
    assert Hex.HexDigits(16) == [1, 0];
    assert Hex.HexDigits(256) == [1, 0, 0];
    assert Hex.HexDigits(18) == [1, 2];
    assert Hex.HexDigits(299) == [1, 2, 11];
  }

  /** hashes.sort(compareBuffers), as a stable insertion sort with the same
      comparator: an element moves before the first one that compares
      greater than it. */
  function Insert(x: Bytes, s: seq<Bytes>): (r: seq<Bytes>)
    ensures |r| == |s| + 1
    ensures multiset(r) == multiset(s) + multiset{x}
  {
    if s == [] then [x]
    else if LocalDiff(s[0], x).Pos() then [x] + s
    else
      assert s == [s[0]] + s[1..];
      [s[0]] + Insert(x, s[1..])
  }

  function Sort(s: seq<Bytes>): (r: seq<Bytes>)
    ensures |r| == |s|
    ensures multiset(r) == multiset(s)
  {
    if s == [] then []
    else
      assert s == s[..|s| - 1] + [s[|s| - 1]];
      Insert(s[|s| - 1], Sort(s[..|s| - 1]))
  }

  /** Ascending in the comparator's order. */
  predicate Sorted(s: seq<Bytes>)
  {
    forall i, j :: 0 <= i < j < |s| ==> NotAbove(s[i], s[j])
  }

  predicate SameLength(s: seq<Bytes>, n: nat)
  {
    forall i :: 0 <= i < |s| ==> |s[i]| == n
  }

  /** The leaves: the i-th sorted value followed by encodeValue(i). */
  function Leaves(sorted: seq<Bytes>): (r: seq<Bytes>)
    ensures |r| == |sorted|
  {
    seq(|sorted|, i requires 0 <= i < |sorted| => sorted[i] + EncodeValue(i))
  }

  /** createMerkle: sorts the caller's array in place, then maps each value
      to its index-suffixed leaf and builds the tree. */
  method CreateMerkle(tree: Tree, hashes: array<Bytes>) returns (root: Bytes, leaves: seq<Bytes>)
    modifies hashes
    ensures hashes[..] == Sort(old(hashes[..]))
    ensures leaves == Leaves(hashes[..])
    ensures root == tree.root(leaves)
  {
    var sorted := Sort(hashes[..]);
    for i := 0 to hashes.Length
      invariant forall k :: 0 <= k < i ==> hashes[k] == sorted[k]
    {
      hashes[i] := sorted[i];
    }
    assert hashes[..] == sorted;
    leaves := Leaves(sorted);
    root := tree.root(leaves);
  }

  // ---------------------------------------------------------------------
  // Sorting

  lemma {:induction false} InsertElements(x: Bytes, s: seq<Bytes>, e: Bytes)
    requires e in Insert(x, s)
    ensures e == x || e in s
  {
    assert e in multiset(Insert(x, s));
  }

  lemma {:induction false} InsertSorted(x: Bytes, s: seq<Bytes>, n: nat)
    requires Sorted(s) && SameLength(s, n) && |x| == n
    ensures Sorted(Insert(x, s)) && SameLength(Insert(x, s), n)
  {
    var r := Insert(x, s);
    forall e | e in r ensures |e| == n {
      InsertElements(x, s, e);
    }
    if s == [] {
    } else if LocalDiff(s[0], x).Pos() {
      Antisymmetric(s[0], x);
      forall j | 0 < j < |r| ensures NotAbove(r[0], r[j]) {
        assert r[j] == s[j - 1];
        if j > 1 {
          Transitive(x, s[0], s[j - 1]);
        }
      }
    } else {
      Antisymmetric(s[0], x);
      var t := Insert(x, s[1..]);
      assert Sorted(s[1..]) && SameLength(s[1..], n);
      InsertSorted(x, s[1..], n);
      forall j | 0 <= j < |t| ensures NotAbove(s[0], t[j]) {
        InsertElements(x, s[1..], t[j]);
        if t[j] != x {
          var k :| 0 <= k < |s[1..]| && s[1..][k] == t[j];
          assert s[k + 1] == t[j];
        }
      }
      assert r == [s[0]] + t;
    }
  }

  /** On values of one length, the sort yields an ascending permutation. */
  lemma {:induction false} SortSorted(s: seq<Bytes>, n: nat)
    requires SameLength(s, n)
    ensures Sorted(Sort(s)) && SameLength(Sort(s), n)
  {
    if s != [] {
      var init := s[..|s| - 1];
      assert SameLength(init, n);
      SortSorted(init, n);
      InsertSorted(s[|s| - 1], Sort(init), n);
    }
  }

  // ---------------------------------------------------------------------
  // The leaves of createMerkle

  /** Leaves of the tree as the proofs need them: 33 bytes each, position
      suffixes equal to the positions, strictly ascending. */
  predicate WellFormedLeaves(leaves: seq<Bytes>)
  {
    && |leaves| <= 256
    && SameLength(leaves, HASH_LENGTH_WITH_INDEX)
    && (forall i :: 0 <= i < |leaves| ==> leaves[i][HASH_LENGTH_WITH_INDEX - 1] == i)
    && (forall i, j :: 0 <= i < j < |leaves| ==> LocalDiff(leaves[i], leaves[j]).Neg())
  }

  /** Appending suffixes keeps a strict difference before them, and breaks a
      tie by the suffixes. */
  lemma AppendOrder(a: Bytes, b: Bytes, x: Bytes, y: Bytes)
    requires |a| == |b| && |x| == |y|
    ensures LocalDiff(a, b).Neg() ==> LocalDiff(a + x, b + y).Neg()
    ensures a == b ==> LocalDiff(a + x, b + y) == LocalDiff(x, y)
  {
    if LocalDiff(a, b).Neg() {
      var k := FirstDifferenceOf(a, b, 0);
      assert (a + x)[..k] == a[..k] && (b + y)[..k] == b[..k];
      DiffAtFirstDifference(a + x, b + y, k);
    }
    if a == b {
      AppendEqualFrom(a, x, y, 0);
    }
  }

  lemma {:induction false} AppendEqualFrom(a: Bytes, x: Bytes, y: Bytes, i: nat)
    requires i <= |a| && |x| == |y|
    ensures i <= |a| ==> DiffFrom(a + x, a + y, i) == DiffFrom(x, y, 0)
    decreases |a| - i
  {
    if i < |a| {
      assert (a + x)[i] == a[i] == (a + y)[i];
      AppendEqualFrom(a, x, y, i + 1);
    } else {
      AppendEqualTail(a, x, y, 0);
    }
  }

  lemma {:induction false} AppendEqualTail(a: Bytes, x: Bytes, y: Bytes, j: nat)
    requires |x| == |y| && j <= |x|
    ensures DiffFrom(a + x, a + y, |a| + j) == DiffFrom(x, y, j)
    decreases |x| - j
  {
    if j < |x| {
      AppendEqualTail(a, x, y, j + 1);
    }
  }

  /** For fewer than 256 values of 32 bytes, createMerkle's leaves are the
      sorted values each followed by its position byte, and they are
      strictly ascending. */
  lemma CreateMerkleLeaves(hashes: seq<Bytes>)
    requires |hashes| < 256 && SameLength(hashes, 32)
    ensures forall i :: 0 <= i < |hashes| ==> Leaves(Sort(hashes))[i] == Sort(hashes)[i] + [i]
    ensures Sorted(Sort(hashes))
    ensures WellFormedLeaves(Leaves(Sort(hashes)))
  {
    var s := Sort(hashes);
    SortSorted(hashes, 32);
    SmallLeaves(s);
    SmallLeavesAscend(s);
  }

  lemma SmallLeaves(s: seq<Bytes>)
    requires |s| < 256 && SameLength(s, 32)
    ensures forall i :: 0 <= i < |s| ==> Leaves(s)[i] == s[i] + [i]
    ensures SameLength(Leaves(s), HASH_LENGTH_WITH_INDEX)
    ensures forall i :: 0 <= i < |s| ==> Leaves(s)[i][HASH_LENGTH_WITH_INDEX - 1] == i
  {
    var l := Leaves(s);
    forall i | 0 <= i < |s| ensures l[i] == s[i] + [i] {
      EncodeSmallValue(i);
    }
  }

  lemma SmallLeavesAscend(s: seq<Bytes>)
    requires |s| < 256 && SameLength(s, 32) && Sorted(s)
    requires forall i :: 0 <= i < |s| ==> Leaves(s)[i] == s[i] + [i]
    ensures forall i, j :: 0 <= i < j < |s| ==> LocalDiff(Leaves(s)[i], Leaves(s)[j]).Neg()
  {
    var l := Leaves(s);
    forall i, j | 0 <= i < j < |l| ensures LocalDiff(l[i], l[j]).Neg() {
      LeafPairOrder(s[i], s[j], i, j);
    }
  }

  lemma LeafPairOrder(a: Bytes, b: Bytes, i: nat, j: nat)
    requires |a| == |b| && NotAbove(a, b) && i < j < 256
    ensures LocalDiff(a + [i], b + [j]).Neg()
  {
    AppendOrder(a, b, [i], [j]);
    if a != b {
      EqualLengthZero(a, b);
    } else {
      DiffAtFirstDifference([i], [j], 0);
    }
  }

  // ---------------------------------------------------------------------
  // Creating proofs

  /** leaves.findIndex(leaf => compareBuffers(leaf, hash) > 0), -1 if none. */
  function NearestRight(leaves: seq<Bytes>, hash: Bytes): (r: int)
    ensures -1 <= r < |leaves|
    ensures r == -1 <==> forall j :: 0 <= j < |leaves| ==> !LocalDiff(leaves[j], hash).Pos()
    ensures r >= 0 ==> LocalDiff(leaves[r], hash).Pos()
    ensures r >= 0 ==> forall j :: 0 <= j < r ==> !LocalDiff(leaves[j], hash).Pos()
  {
    if leaves == [] then -1
    else if LocalDiff(leaves[0], hash).Pos() then 0
    else
      var r := NearestRight(leaves[1..], hash);
      assert forall j :: 0 < j < |leaves| ==> leaves[j] == leaves[1..][j - 1];
      if r == -1 then -1 else r + 1
  }

  function WithProof(tree: Tree, leaves: seq<Bytes>, leaf: Bytes): SubNegation
  {
    SubNegation(tree.getProof(leaves, leaf), leaf)
  }

  /** createNegativeProof. With no leaves, leaves[leaves.length - 1] is
      undefined and no proof can be formed. */
  function CreateNegativeProof(tree: Tree, leaves: seq<Bytes>, hash: Bytes): (r: Result<NegativeProof, MerkleError>)
    ensures r.Err? <==> leaves == []
    ensures r.Ok? ==> r.value.not == hash
    ensures r.Ok? && (forall j :: 0 <= j < |leaves| ==> !LocalDiff(leaves[j], hash).Pos()) ==>
              r.value == LeftOnly(WithProof(tree, leaves, leaves[|leaves| - 1]), hash)
    ensures r.Ok? && LocalDiff(leaves[0], hash).Pos() ==>
              r.value == RightOnly(WithProof(tree, leaves, leaves[0]), hash)
    ensures forall k :: (0 < k < |leaves| && LocalDiff(leaves[k], hash).Pos() &&
              (forall j :: 0 <= j < k ==> !LocalDiff(leaves[j], hash).Pos())) ==>
              r == Ok(Both(WithProof(tree, leaves, leaves[k - 1]), WithProof(tree, leaves, leaves[k]), hash))
  {
    var nearestRight := NearestRight(leaves, hash);
    if nearestRight == -1 then
      if leaves == [] then Err(NoLastLeaf)
      else Ok(LeftOnly(WithProof(tree, leaves, leaves[|leaves| - 1]), hash))
    else if nearestRight == 0 then
      Ok(RightOnly(WithProof(tree, leaves, leaves[0]), hash))
    else
      Ok(Both(WithProof(tree, leaves, leaves[nearestRight - 1]), WithProof(tree, leaves, leaves[nearestRight]), hash))
  }

  /** leaves.some(leaf => compareBuffers(leaf, hash) === 0). */
  predicate SomeLeafEqual(leaves: seq<Bytes>, hash: Bytes)
  {
    exists i | 0 <= i < |leaves| :: LocalDiff(leaves[i], hash).Zero()
  }

  /** createProof: positive when some leaf compares equal, negative
      otherwise. */
  function CreateProof(tree: Tree, leaves: seq<Bytes>, hash: Bytes): (r: Result<EitherProof, MerkleError>)
    ensures r.Ok? && r.value.Positive? <==> SomeLeafEqual(leaves, hash)
    ensures r.Ok? && r.value.Positive? ==> r.value == Positive(tree.getProof(leaves, hash), hash)
    ensures !SomeLeafEqual(leaves, hash) ==> r == (match CreateNegativeProof(tree, leaves, hash)
                                                  case Ok(n) => Ok(Negative(n))
                                                  case Err(e) => Err(e))
  {
    if SomeLeafEqual(leaves, hash) then Ok(Positive(tree.getProof(leaves, hash), hash))
    else match CreateNegativeProof(tree, leaves, hash)
      case Ok(n) => Ok(Negative(n))
      case Err(e) => Err(e)
  }

  // ---------------------------------------------------------------------
  // Verifying proofs

  /** checkNegativeProofLength. */
  predicate CheckNegativeProofLength(side: SubNegation)
  {
    |side.leaf| == HASH_LENGTH_WITH_INDEX
  }

  /** parseInt(leaf.subarray(-1).toString("hex"), 16) of a 33-byte leaf. */
  function SuffixIndex(leaf: Bytes): nat
    requires |leaf| == HASH_LENGTH_WITH_INDEX
  {
    leaf[HASH_LENGTH_WITH_INDEX - 1]
  }

  predicate PathOK(tree: Tree, root: Bytes, side: SubNegation)
  {
    tree.verify(side.proof, side.leaf, root)
  }

  /** verifyProof, as written: a left-only proof needs suffix 0, a
      right-only proof needs suffix NUMBER_OF_TRANSACTIONS - 1. */
  function VerifyProof(tree: Tree, root: Bytes, proof: EitherProof): bool
  {
    match proof
    case Positive(path, leaf) => tree.verify(path, leaf, root)
    case Negative(n) =>
      if |n.not| != HASH_LENGTH_WITH_INDEX then false
      else match n
        case LeftOnly(left, not) =>
          if !CheckNegativeProofLength(left) then false
          else if !PathOK(tree, root, left) then false
          else if SuffixIndex(left.leaf) != 0 then false
          else LocalDiff(left.leaf, not).Neg()
        case RightOnly(right, not) =>
          if !CheckNegativeProofLength(right) then false
          else if !PathOK(tree, root, right) then false
          else if SuffixIndex(right.leaf) != NUMBER_OF_TRANSACTIONS - 1 then false
          else LocalDiff(right.leaf, not).Pos()
        case Both(left, right, not) =>
          if !CheckNegativeProofLength(left) || !CheckNegativeProofLength(right) then false
          else if !PathOK(tree, root, left) || !PathOK(tree, root, right) then false
          else if SuffixIndex(left.leaf) + 1 != SuffixIndex(right.leaf) then false
          else LocalDiff(right.leaf, not).Pos() && LocalDiff(left.leaf, not).Neg()
  }

  /** Every accepted negative proof has a 33-byte absent value and 33-byte
      neighbours. */
  lemma VerifiedNegativeLengths(tree: Tree, root: Bytes, n: NegativeProof)
    requires VerifyProof(tree, root, Negative(n))
    ensures |n.not| == HASH_LENGTH_WITH_INDEX
    ensures !n.RightOnly? ==> |n.left.leaf| == HASH_LENGTH_WITH_INDEX
    ensures !n.LeftOnly? ==> |n.right.leaf| == HASH_LENGTH_WITH_INDEX
  {
  }

  /** A left-only proof is accepted exactly when the lengths are right, its
      path checks, its suffix byte is 0 and its leaf is below the absent
      value. */
  lemma LeftOnlyAccepted(tree: Tree, root: Bytes, left: SubNegation, not: Bytes)
    ensures VerifyProof(tree, root, Negative(LeftOnly(left, not))) <==>
              && |not| == HASH_LENGTH_WITH_INDEX && |left.leaf| == HASH_LENGTH_WITH_INDEX
              && tree.verify(left.proof, left.leaf, root)
              && left.leaf[HASH_LENGTH_WITH_INDEX - 1] == 0
              && LocalDiff(left.leaf, not).Neg()
  {
  }

  /** No right-only proof is ever accepted: the suffix is one byte and
      cannot equal 299. */
  lemma RightOnlyNeverAccepted(tree: Tree, root: Bytes, right: SubNegation, not: Bytes)
    ensures !VerifyProof(tree, root, Negative(RightOnly(right, not)))
  {
  }

  /** A two-sided proof is accepted exactly when the lengths are right, both
      paths check, the suffixes are adjacent and left < absent < right. */
  lemma BothAccepted(tree: Tree, root: Bytes, left: SubNegation, right: SubNegation, not: Bytes)
    ensures VerifyProof(tree, root, Negative(Both(left, right, not))) <==>
              && |not| == HASH_LENGTH_WITH_INDEX
              && |left.leaf| == HASH_LENGTH_WITH_INDEX && |right.leaf| == HASH_LENGTH_WITH_INDEX
              && tree.verify(left.proof, left.leaf, root) && tree.verify(right.proof, right.leaf, root)
              && left.leaf[HASH_LENGTH_WITH_INDEX - 1] as int + 1 == right.leaf[HASH_LENGTH_WITH_INDEX - 1] as int
              && LocalDiff(left.leaf, not).Neg() && LocalDiff(not, right.leaf).Neg()
  {
    if |right.leaf| == |not| {
      Antisymmetric(right.leaf, not);
    }
  }

  /** The path check of a tree that accepts exactly the leaves it was built
      from. */
  ghost predicate HonestTree(tree: Tree, leaves: seq<Bytes>)
  {
    && (forall p, l :: tree.verify(p, l, tree.root(leaves)) ==> l in leaves)
    && (forall l :: l in leaves ==> tree.verify(tree.getProof(leaves, l), l, tree.root(leaves)))
  }

  /** As written, a left-only proof accepts a "missing" value that is in fact
      a leaf: with two leaves, the first one as left neighbour vouches for the
      absence of the second. */
  lemma LeftOnlyAcceptsPresentValue(tree: Tree)
    requires HonestTree(tree, [seq(32, _ => 0) + [0], [1] + seq(31, _ => 0) + [1]])
    ensures var leaves := [seq(32, _ => 0) + [0], [1] + seq(31, _ => 0) + [1]];
            var proof := LeftOnly(WithProof(tree, leaves, leaves[0]), leaves[1]);
            && WellFormedLeaves(leaves)
            && leaves[1] in leaves
            && VerifyProof(tree, tree.root(leaves), Negative(proof))
  {
    var a: Bytes := seq(32, _ => 0) + [0];
    var b: Bytes := [1] + seq(31, _ => 0) + [1];
    var leaves := [a, b];
    assert a[0] == 0 && b[0] == 1;
    DiffAtFirstDifference(a, b, 0);
    assert a in leaves;
  }

  /** verifyProof with the one-sided checks matched to the leaves that
      createMerkle builds (sorted ascending, index appended): a right-only
      proof must show the first slot (suffix 0), a left-only proof the last
      slot of the tree, whose suffix is `lastSlot`. */
  function VerifyProofFixed(tree: Tree, root: Bytes, proof: EitherProof, lastSlot: nat): bool
  {
    match proof
    case Positive(path, leaf) => tree.verify(path, leaf, root)
    case Negative(n) =>
      if |n.not| != HASH_LENGTH_WITH_INDEX then false
      else match n
        case LeftOnly(left, not) =>
          && CheckNegativeProofLength(left) && PathOK(tree, root, left)
          && SuffixIndex(left.leaf) == lastSlot
          && LocalDiff(left.leaf, not).Neg()
        case RightOnly(right, not) =>
          && CheckNegativeProofLength(right) && PathOK(tree, root, right)
          && SuffixIndex(right.leaf) == 0
          && LocalDiff(right.leaf, not).Pos()
        case Both(left, right, not) =>
          && CheckNegativeProofLength(left) && CheckNegativeProofLength(right)
          && PathOK(tree, root, left) && PathOK(tree, root, right)
          && SuffixIndex(left.leaf) + 1 == SuffixIndex(right.leaf)
          && LocalDiff(right.leaf, not).Pos() && LocalDiff(left.leaf, not).Neg()
  }

  /** A leaf that the tree vouches for sits at the position its suffix
      names. */
  lemma LeafAtSuffix(leaves: seq<Bytes>, leaf: Bytes) returns (k: nat)
    requires WellFormedLeaves(leaves) && leaf in leaves
    ensures k < |leaves| && leaves[k] == leaf && SuffixIndex(leaf) == k
  {
    k :| 0 <= k < |leaves| && leaves[k] == leaf;
  }

  /** Soundness of the corrected check: over well-formed leaves and a path
      check that vouches only for leaves of the tree, an accepted negative
      proof's value is not a leaf. */
  lemma FixedNegativeProofSound(tree: Tree, leaves: seq<Bytes>, n: NegativeProof)
    requires WellFormedLeaves(leaves) && leaves != []
    requires forall p, l :: tree.verify(p, l, tree.root(leaves)) ==> l in leaves
    requires VerifyProofFixed(tree, tree.root(leaves), Negative(n), |leaves| - 1)
    ensures n.not !in leaves
  {
    var not := n.not;
    if not in leaves {
      var j :| 0 <= j < |leaves| && leaves[j] == not;
      assert LocalDiff(not, not).Zero() by { EqualLengthZero(not, not); }
      match n
      case LeftOnly(left, _) =>
        var k := LeafAtSuffix(leaves, left.leaf);
        if j < k { Antisymmetric(leaves[j], leaves[k]); }
      case RightOnly(right, _) =>
        var k := LeafAtSuffix(leaves, right.leaf);
      case Both(left, right, _) =>
        var k := LeafAtSuffix(leaves, left.leaf);
        var m := LeafAtSuffix(leaves, right.leaf);
        if j < k {
          Antisymmetric(leaves[j], leaves[k]);
        }
    }
  }

  /** Completeness of the corrected check: for a value of 33 bytes that is
      not a leaf, the proof that createProof builds is negative and is
      accepted. */
  lemma FixedNegativeProofComplete(tree: Tree, leaves: seq<Bytes>, hash: Bytes)
    requires WellFormedLeaves(leaves) && leaves != [] && HonestTree(tree, leaves)
    requires |hash| == HASH_LENGTH_WITH_INDEX && hash !in leaves
    ensures CreateProof(tree, leaves, hash).Ok?
    ensures CreateProof(tree, leaves, hash).value.Negative?
    ensures VerifyProofFixed(tree, tree.root(leaves), CreateProof(tree, leaves, hash).value, |leaves| - 1)
  {
    forall i | 0 <= i < |leaves| ensures !LocalDiff(leaves[i], hash).Zero() {
      EqualLengthZero(leaves[i], hash);
    }
    var r := NearestRight(leaves, hash);
    var root := tree.root(leaves);
    if r == -1 {
      var last := leaves[|leaves| - 1];
      Total(hash, last);
      Antisymmetric(hash, last);
    } else if r > 0 {
      var left := leaves[r - 1];
      Antisymmetric(hash, left);
    }
  }
}
