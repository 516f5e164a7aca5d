/** The two byte comparators of the ledger.

    `compareBuffers` in src/utils.ts throws when the lengths differ and
    otherwise returns a[i] - b[i] at the first index where the buffers
    differ, or 0. The private `compareBuffers` in src/merkle.ts has no length check:
    it walks the first buffer, and when the second one runs out first it
    subtracts `undefined`, which yields NaN. */
module Compare {
  import opened Common

  /** A JavaScript number as produced by the comparators: an integer or NaN.
      The three tests mirror `< 0`, `> 0` and `=== 0`; all are false of NaN. */
  datatype Diff = Num(n: int) | NaN {
    predicate Neg() { Num? && n < 0 }
    predicate Pos() { Num? && n > 0 }
    predicate Zero() { Num? && n == 0 }
  }

  datatype CompareError = LengthMismatch(aLength: nat, bLength: nat)

  /** The merkle.ts comparator, from index i on. */
  function DiffFrom(a: Bytes, b: Bytes, i: nat): Diff
    decreases |a| - i
  {
    if i >= |a| then Num(0)
    else if i >= |b| then NaN
    else if a[i] != b[i] then Num(a[i] as int - b[i] as int)
    else DiffFrom(a, b, i + 1)
  }

  /** The merkle.ts comparator. */
  function LocalDiff(a: Bytes, b: Bytes): Diff
  {
    DiffFrom(a, b, 0)
  }

  /** The utils.ts comparator: the length check, then the same walk. */
  function BufferDiff(a: Bytes, b: Bytes): Result<int, CompareError>
  {
    if |a| != |b| then Err(LengthMismatch(|a|, |b|))
    else DiffFromNum(a, b, 0); Ok(LocalDiff(a, b).n)
  }

  /** Lexicographic order as an independent reference: some index i at which
      a is smaller, with equal prefixes before it. */
  ghost predicate LexLess(a: Bytes, b: Bytes)
  {
    exists i :: 0 <= i < |a| && i < |b| && a[..i] == b[..i] && a[i] < b[i]
  }

  // ---------------------------------------------------------------------
  // The loops of the two comparators.

  /** src/utils.ts compareBuffers. */
  method CompareBuffers(a: Bytes, b: Bytes) returns (r: Result<int, CompareError>)
    ensures r == BufferDiff(a, b)
    ensures r.Ok? ==> (r.value == 0 <==> a == b)
  {
    if |a| != |b| {
      return Err(LengthMismatch(|a|, |b|));
    }
    for i := 0 to |a|
      invariant DiffFrom(a, b, 0) == DiffFrom(a, b, i)
      invariant a[..i] == b[..i]
    {
      if a[i] != b[i] {
        return Ok(a[i] as int - b[i] as int);
      }
      assert a[..i + 1] == b[..i + 1];
    }
    assert a == a[..|a|] && b == b[..|b|];
    r := Ok(0);
    EqualLengthZero(a, b);
  }

  /** The private comparator of src/merkle.ts. */
  method CompareLocal(a: Bytes, b: Bytes) returns (r: Diff)
    ensures r == LocalDiff(a, b)
  {
    for i := 0 to |a|
      invariant DiffFrom(a, b, 0) == DiffFrom(a, b, i)
    {
      if i >= |b| {
        return NaN;
      }
      if a[i] != b[i] {
        return Num(a[i] as int - b[i] as int);
      }
    }
    return Num(0);
  }

  // ---------------------------------------------------------------------
  // What the comparators compute.

  lemma {:induction false} DiffFromNum(a: Bytes, b: Bytes, i: nat)
    requires |a| == |b|
    ensures DiffFrom(a, b, i).Num?
    decreases |a| - i
  {
    if i < |a| && a[i] == b[i] {
      DiffFromNum(a, b, i + 1);
    }
  }

  /** From index i on, the walk returns 0 exactly when the suffixes agree. */
  lemma {:induction false} DiffFromZero(a: Bytes, b: Bytes, i: nat)
    requires |a| == |b| && i <= |a|
    ensures DiffFrom(a, b, i).Zero() <==> a[i..] == b[i..]
    decreases |a| - i
  {
    if i < |a| {
      DiffFromZero(a, b, i + 1);
      if a[i] == b[i] {
        assert a[i..] == [a[i]] + a[i + 1..];
        assert b[i..] == [b[i]] + b[i + 1..];
      } else {
        assert a[i..][0] != b[i..][0];
      }
    }
  }

  /** On equal lengths the result is 0 exactly when the buffers are equal. */
  lemma EqualLengthZero(a: Bytes, b: Bytes)
    requires |a| == |b|
    ensures LocalDiff(a, b).Zero() <==> a == b
  {
    DiffFromZero(a, b, 0);
    assert a[0..] == a && b[0..] == b;
  }

  /** The utils.ts comparator throws exactly on a length mismatch, and returns
      0 exactly on equal buffers. */
  lemma BufferDiffCases(a: Bytes, b: Bytes)
    ensures BufferDiff(a, b).Err? <==> |a| != |b|
    ensures BufferDiff(a, b) == Ok(0) <==> a == b
  {
    if |a| == |b| {
      EqualLengthZero(a, b);
      DiffFromNum(a, b, 0);
    }
  }

  /** Past an equal prefix, the walk returns the difference at the first
      index where the buffers differ. */
  lemma {:induction false} DiffAtFirstDifferenceFrom(a: Bytes, b: Bytes, i: nat, k: nat)
    requires i <= k < |a| && k < |b|
    requires a[i..k] == b[i..k] && a[k] != b[k]
    ensures DiffFrom(a, b, i) == Num(a[k] as int - b[k] as int)
    decreases k - i
  {
    if i < k {
      assert a[i..k][0] == b[i..k][0];
      assert a[i + 1..k] == a[i..k][1..] && b[i + 1..k] == b[i..k][1..];
      DiffAtFirstDifferenceFrom(a, b, i + 1, k);
    }
  }

  /** The nonzero result is a[k] - b[k] at the first index k where a and b
      differ (both comparators). */
  lemma DiffAtFirstDifference(a: Bytes, b: Bytes, k: nat)
    requires k < |a| && k < |b|
    requires a[..k] == b[..k] && a[k] != b[k]
    ensures LocalDiff(a, b) == Num(a[k] as int - b[k] as int)
    ensures |a| == |b| ==> BufferDiff(a, b) == Ok(a[k] as int - b[k] as int)
  {
    assert a[0..k] == a[..k] && b[0..k] == b[..k];
    DiffAtFirstDifferenceFrom(a, b, 0, k);
  }

  /** Conversely, a negative or positive result comes from a first differing
      index. */
  lemma {:induction false} FirstDifferenceOf(a: Bytes, b: Bytes, i: nat) returns (k: nat)
    requires i <= |a| && i <= |b| && a[..i] == b[..i]
    requires DiffFrom(a, b, i).Num? && DiffFrom(a, b, i).n != 0
    ensures i <= k < |a| && k < |b| && a[..k] == b[..k] && a[k] != b[k]
    ensures DiffFrom(a, b, i) == Num(a[k] as int - b[k] as int)
    decreases |a| - i
  {
    if a[i] != b[i] {
      k := i;
    } else {
      assert a[..i + 1] == b[..i + 1];
      k := FirstDifferenceOf(a, b, i + 1);
    }
  }

  /** The sign of the result matches lexicographic order on buffers of equal
      length. */
  lemma SignIsLexOrder(a: Bytes, b: Bytes)
    requires |a| == |b|
    ensures LocalDiff(a, b).Neg() <==> LexLess(a, b)
    ensures LocalDiff(a, b).Pos() <==> LexLess(b, a)
  {
    DiffFromNum(a, b, 0);
    if LexLess(a, b) {
      var k :| 0 <= k < |a| && k < |b| && a[..k] == b[..k] && a[k] < b[k];
      DiffAtFirstDifference(a, b, k);
    }
    if LexLess(b, a) {
      var k :| 0 <= k < |b| && k < |a| && b[..k] == a[..k] && b[k] < a[k];
      DiffAtFirstDifference(a, b, k);
    }
    if LocalDiff(a, b).n != 0 {
      var k := FirstDifferenceOf(a, b, 0);
      assert a[k] < b[k] ==> LexLess(a, b);
      assert b[k] < a[k] ==> LexLess(b, a);
    }
  }

  /** compare(a, b) == -compare(b, a) on buffers of equal length. */
  lemma Antisymmetric(a: Bytes, b: Bytes)
    requires |a| == |b|
    ensures LocalDiff(a, b).Num? && LocalDiff(b, a).Num?
    ensures LocalDiff(a, b).n == -LocalDiff(b, a).n
  {
    DiffFromNum(a, b, 0);
    DiffFromNum(b, a, 0);
    if LocalDiff(a, b).n != 0 {
      var k := FirstDifferenceOf(a, b, 0);
      DiffAtFirstDifference(b, a, k);
    } else {
      EqualLengthZero(a, b);
    }
  }

  /** Without the length check, a buffer compares as equal to any longer
      buffer that it is a prefix of, and the longer one against it gives NaN. */
  lemma PrefixComparison(a: Bytes, b: Bytes)
    requires |a| < |b| && a == b[..|a|]
    ensures LocalDiff(a, b) == Num(0)
    ensures LocalDiff(b, a) == NaN
  {
    PrefixFrom(a, b, 0);
  }

  lemma {:induction false} PrefixFrom(a: Bytes, b: Bytes, i: nat)
    requires i <= |a| < |b| && a == b[..|a|]
    ensures DiffFrom(a, b, i) == Num(0)
    ensures DiffFrom(b, a, i) == NaN
    decreases |a| - i
  {
    if i < |a| {
      assert a[i] == b[i];
      PrefixFrom(a, b, i + 1);
    }
  }

  // ---------------------------------------------------------------------
  // Order facts used by the Merkle proofs (equal-length buffers).

  /** a <= b in the comparator's order. */
  predicate NotAbove(a: Bytes, b: Bytes)
  {
    LocalDiff(a, b).Num? && LocalDiff(a, b).n <= 0
  }

  lemma {:induction false} TransitiveFrom(a: Bytes, b: Bytes, c: Bytes, i: nat)
    requires |a| == |b| == |c|
    requires DiffFrom(a, b, i).Num? && DiffFrom(a, b, i).n <= 0
    requires DiffFrom(b, c, i).Num? && DiffFrom(b, c, i).n <= 0
    ensures DiffFrom(a, c, i).Num? && DiffFrom(a, c, i).n <= 0
    ensures (DiffFrom(a, b, i).n < 0 || DiffFrom(b, c, i).n < 0) ==> DiffFrom(a, c, i).n < 0
    decreases |a| - i
  {
    if i < |a| && a[i] == b[i] && b[i] == c[i] {
      TransitiveFrom(a, b, c, i + 1);
    }
  }

  /** The comparator's order is transitive, strictly so when either step is
      strict. */
  lemma Transitive(a: Bytes, b: Bytes, c: Bytes)
    requires |a| == |b| == |c|
    requires NotAbove(a, b) && NotAbove(b, c)
    ensures NotAbove(a, c)
    ensures (LocalDiff(a, b).Neg() || LocalDiff(b, c).Neg()) ==> LocalDiff(a, c).Neg()
  {
    TransitiveFrom(a, b, c, 0);
  }

  /** Any two buffers of equal length are ordered one way or the other. */
  lemma Total(a: Bytes, b: Bytes)
    requires |a| == |b|
    ensures NotAbove(a, b) || LocalDiff(b, a).Neg()
  {
    Antisymmetric(a, b);
  }
}
