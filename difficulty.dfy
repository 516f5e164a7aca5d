/** src/difficulty.ts: stored difficulties, retargeting from block
    timestamps, and the limit carried in a main block. */
module Difficulty {
  import opened Common
  import Hex
  import Serializer
  import opened Storage

  const DEFAULT_DIFFICULTY: nat := 0xffff_ffff_ffff_ffff_ffff_ffff_ffff_ffff_ffff_ffff_ffff_ffff_ffff_ffff_ffff_ffff
  const EXPECTED_TIME_IN_MILLIS: int := 60 * 1000

  /** DIFFICULTY_COEFS: the threshold multiplier of each category. */
  function Coefficient(t: DifficultyType): (c: nat)
    ensures c == if t == MAIN then 1 else if t == PADDING_BIG then 2 else if t == SIDE then 4
                 else if t == PADDING_SMALL then 8 else 16
  {
    match t
    case MAIN => 1
    case PADDING_BIG => 2
    case SIDE => 4
    case PADDING_SMALL => 8
    case TRANSACTION => 16
  }

  /** The store key of a category: its own name. */
  function TypeName(t: DifficultyType): string
  {
    match t
    case MAIN => "MAIN"
    case SIDE => "SIDE"
    case TRANSACTION => "TRANSACTION"
    case PADDING_BIG => "PADDING_BIG"
    case PADDING_SMALL => "PADDING_SMALL"
  }

  datatype DifficultyError = NotANumber | DecodeFailed | NoIntervals | ZeroInterval
    | LimitNotFixedSize(length: nat) | LimitNotHex

  /** getDifficulty: `difficulty ? BigInt(difficulty) : DEFAULT_DIFFICULTY`.
      A missing entry, the empty string and the BigInt 0 are falsy and give
      the default; decimal text gives its value; other text makes BigInt
      throw. */
  function GetDifficulty(items: Items, t: DifficultyType): (r: Result<int, DifficultyError>)
    ensures Named(TypeName(t)) !in items ==> r == Ok(DEFAULT_DIFFICULTY)
    ensures Named(TypeName(t)) in items && items[Named(TypeName(t))] == Num(0) ==> r == Ok(DEFAULT_DIFFICULTY)
    ensures Named(TypeName(t)) in items && items[Named(TypeName(t))].Num? && items[Named(TypeName(t))].n != 0 ==>
              r == Ok(items[Named(TypeName(t))].n)
  {
    match Lookup(items, Named(TypeName(t)))
    case None => Ok(DEFAULT_DIFFICULTY)
    case Some(Num(n)) => if n == 0 then Ok(DEFAULT_DIFFICULTY) else Ok(n)
    case Some(Text(s)) =>
      if s == [] then Ok(DEFAULT_DIFFICULTY)
      else (match CounterText(Some(Text(s)))
        case Some(n) => Ok(n)
        case None => Err(NotANumber))
    case Some(Decimal(d)) => Ok(d)
    case Some(_) => Err(NotANumber)
  }

  /** setDifficulty: stores the BigInt under the category's name. */
  method SetDifficulty(store: Store, t: DifficultyType, difficulty: int)
    modifies store
    ensures store.items == old(store.items)[Named(TypeName(t)) := Num(difficulty)]
  {
    store.SetItem(Named(TypeName(t)), Num(difficulty));
  }

  /** Reading back what setDifficulty stored gives it back, except that 0 is
      falsy and reads as the default; the counters are untouched. */
  lemma SetThenGet(items: Items, t: DifficultyType, difficulty: int)
    ensures GetDifficulty(items[Named(TypeName(t)) := Num(difficulty)], t) ==
              Ok(if difficulty == 0 then DEFAULT_DIFFICULTY else difficulty)
    ensures CountersWellFormed(items) ==> CountersWellFormed(items[Named(TypeName(t)) := Num(difficulty)])
  {
  }

  // ---------------------------------------------------------------------
  // recomputeDifficulty, over exact rationals

  /** The intervals between consecutive timestamps. */
  function Intervals(ts: seq<int>): (ds: seq<int>)
    ensures |ds| == if |ts| == 0 then 0 else |ts| - 1
    ensures forall i :: 0 <= i < |ds| ==> ds[i] == ts[i + 1] - ts[i]
  {
    if |ts| < 2 then [] else [ts[1] - ts[0]] + Intervals(ts[1..])
  }

  /** EXPECTED_TIME_IN_MILLIS / interval. */
  function Ratio(d: int): real
    requires d != 0
  {
    EXPECTED_TIME_IN_MILLIS as real / d as real
  }

  /** The ratio of each interval. */
  function Ratios(ds: seq<int>): (rs: seq<real>)
    requires forall i :: 0 <= i < |ds| ==> ds[i] != 0
    ensures |rs| == |ds|
    ensures forall i :: 0 <= i < |ds| ==> rs[i] == Ratio(ds[i])
  {
    if ds == [] then [] else [Ratio(ds[0])] + Ratios(ds[1..])
  }

  function Sum(rs: seq<real>): real
  {
    if rs == [] then 0.0 else rs[0] + Sum(rs[1..])
  }

  /** integerValue(BigNumber.ROUND_HALF_UP): the nearest integer, ties away
      from zero. */
  function RoundHalfUp(x: real): (r: int)
    ensures x - 0.5 <= r as real <= x + 0.5
    ensures r as real == x + 0.5 ==> x >= 0.0
    ensures r as real == x - 0.5 ==> x <= 0.0
  {
    if x >= 0.0 then (x + 0.5).Floor else -((-x + 0.5).Floor)
  }

  predicate NoZeroInterval(ds: seq<int>)
  {
    forall i :: 0 <= i < |ds| ==> ds[i] != 0
  }

  /** The mean of the ratios. */
  function MeanRatio(ds: seq<int>): real
    requires |ds| > 0 && NoZeroInterval(ds)
  {
    Sum(Ratios(ds)) / |ds| as real
  }

  /** recomputeDifficulty: difficulty times the mean ratio, rounded. With
      fewer than two timestamps the mean is 0/0 (NaN), and a zero interval
      makes a ratio Infinity; either way BigInt throws on the text of the
      result. */
  function Recompute(difficulty: int, ts: seq<int>): (r: Result<int, DifficultyError>)
    ensures r == Err(NoIntervals) <==> |ts| < 2
    ensures r == Err(ZeroInterval) <==> |ts| >= 2 && exists i :: 0 < i < |ts| && ts[i] == ts[i - 1]
    ensures r.Ok? <==> |ts| >= 2 && NoZeroInterval(Intervals(ts))
  {
    var ds := Intervals(ts);
    if |ds| == 0 then Err(NoIntervals)
    else if !NoZeroInterval(ds) then
      ghost var i :| 0 <= i < |ds| && ds[i] == 0;
      assert ts[i + 1] == ts[i];
      Err(ZeroInterval)
    else
      assert forall i :: 0 < i < |ts| ==> ds[i - 1] == ts[i] - ts[i - 1];
      Ok(Next(difficulty, MeanRatio(ds)))
  }

  /** The difficulty scaled by the mean ratio and rounded. */
  function Next(difficulty: int, mean: real): int
  {
    RoundHalfUp(difficulty as real * mean)
  }

  lemma {:induction false} ConstantSum(rs: seq<real>, c: real)
    requires forall i :: 0 <= i < |rs| ==> rs[i] == c
    ensures Sum(rs) == |rs| as real * c
  {
    if rs != [] {
      ConstantSum(rs[1..], c);
    }
  }

  lemma ConstantTimestamps(ts: seq<int>, d: int)
    requires forall i :: 0 < i < |ts| ==> ts[i] - ts[i - 1] == d
    ensures forall i :: 0 <= i < |Intervals(ts)| ==> Intervals(ts)[i] == d
  {
    var ds := Intervals(ts);
    forall i | 0 <= i < |ds| ensures ds[i] == d {
      assert ts[i + 1] - ts[(i + 1) - 1] == d;
    }
  }

  lemma ConstantMean(ds: seq<int>, d: int)
    requires |ds| > 0 && d != 0
    requires forall i :: 0 <= i < |ds| ==> ds[i] == d
    ensures NoZeroInterval(ds)
    ensures MeanRatio(ds) == Ratio(d)
  {
    var c := Ratio(d);
    var rs := Ratios(ds);
    assert forall i :: 0 <= i < |rs| ==> rs[i] == c;
    ConstantSum(rs, c);
    var n := |ds| as real;
    var total := Sum(rs);
    assert total == n * c;
    DivCancel(n, c);
    assert total / n == c;
  }

  lemma DivCancel(n: real, c: real)
    requires n != 0.0
    ensures n * c / n == c
  {
  }

  lemma DivMonotone(a: real, b: real, n: real)
    requires n > 0.0 && a <= b
    ensures a / n <= b / n
  {
    assert a / n * n == a && b / n * n == b;
  }

  lemma MulMonotone(x: real, a: real, b: real)
    requires x >= 0.0 && a <= b
    ensures x * a <= x * b
  {
    assert x * b - x * a == x * (b - a);
  }

  /** With every interval equal to d, the result is difficulty * 60000 / d. */
  lemma ConstantIntervals(difficulty: int, ts: seq<int>, d: int)
    requires |ts| >= 2 && d != 0
    requires forall i :: 0 < i < |ts| ==> ts[i] - ts[i - 1] == d
    ensures Recompute(difficulty, ts) ==
              Ok(Next(difficulty, Ratio(d)))
  {
    ConstantTimestamps(ts, d);
    var ds := Intervals(ts);
    ConstantMean(ds, d);
    assert Recompute(difficulty, ts) == Ok(Next(difficulty, MeanRatio(ds)));
  }

  lemma RoundInteger(n: int)
    ensures RoundHalfUp(n as real) == n
  {
  }

  /** Blocks exactly one expected time apart keep the difficulty. */
  lemma SteadyBlocksKeepDifficulty(difficulty: int, ts: seq<int>)
    requires |ts| >= 2
    requires forall i :: 0 < i < |ts| ==> ts[i] - ts[i - 1] == EXPECTED_TIME_IN_MILLIS
    ensures Recompute(difficulty, ts) == Ok(difficulty)
  {
    ConstantIntervals(difficulty, ts, EXPECTED_TIME_IN_MILLIS);
    assert Ratio(EXPECTED_TIME_IN_MILLIS) == 1.0;
    assert Next(difficulty, 1.0) == RoundHalfUp(difficulty as real);
    RoundInteger(difficulty);
  }

  /** Blocks twice as fast double it. Since a hash must fall below the
      difficulty, a doubled difficulty makes mining easier. */
  lemma FastBlocksDoubleDifficulty(difficulty: int, ts: seq<int>)
    requires |ts| >= 2
    requires forall i :: 0 < i < |ts| ==> ts[i] - ts[i - 1] == EXPECTED_TIME_IN_MILLIS / 2
    ensures Recompute(difficulty, ts) == Ok(2 * difficulty)
  {
    ConstantIntervals(difficulty, ts, EXPECTED_TIME_IN_MILLIS / 2);
    assert Ratio(EXPECTED_TIME_IN_MILLIS / 2) == 2.0;
    assert Next(difficulty, 2.0) == RoundHalfUp((2 * difficulty) as real);
    RoundInteger(2 * difficulty);
  }

  lemma NextMonotone(difficulty: int, a: real, b: real)
    requires difficulty >= 0 && a <= b
    ensures Next(difficulty, a) <= Next(difficulty, b)
  {
    var x := difficulty as real * a;
    var y := difficulty as real * b;
    assert x <= y by {
      MulMonotone(difficulty as real, a, b);
    }
    RoundHalfUpMonotone(x, y);
  }

  lemma RoundHalfUpMonotone(x: real, y: real)
    requires x <= y
    ensures RoundHalfUp(x) <= RoundHalfUp(y)
  {
  }

  lemma {:induction false} SumMonotone(a: seq<real>, b: seq<real>)
    requires |a| == |b| && forall i :: 0 <= i < |a| ==> a[i] <= b[i]
    ensures Sum(a) <= Sum(b)
  {
    if a != [] {
      SumMonotone(a[1..], b[1..]);
    }
  }

  lemma RatioMonotone(d: int, e: int)
    requires 0 < d <= e
    ensures Ratio(e) <= Ratio(d)
  {
    var x := EXPECTED_TIME_IN_MILLIS as real;
    var qe := Ratio(e);
    var qd := Ratio(d);
    assert qe * e as real == x;
    assert qd * d as real == x;
    MulMonotone(qd, d as real, e as real);
  }

  lemma IntervalsPointwise(ts: seq<int>, us: seq<int>)
    requires |ts| == |us|
    requires forall i :: 0 < i < |ts| ==> 0 < ts[i] - ts[i - 1] <= us[i] - us[i - 1]
    ensures |Intervals(ts)| == |Intervals(us)|
    ensures forall i :: 0 <= i < |Intervals(ts)| ==> 0 < Intervals(ts)[i] <= Intervals(us)[i]
  {
    var ds := Intervals(ts);
    var es := Intervals(us);
    forall i | 0 <= i < |ds| ensures 0 < ds[i] <= es[i] {
      assert ts[i + 1] - ts[(i + 1) - 1] == ds[i];
      assert us[i + 1] - us[(i + 1) - 1] == es[i];
    }
  }

  lemma MeanMonotone(ds: seq<int>, es: seq<int>)
    requires |ds| == |es| > 0
    requires forall i :: 0 <= i < |ds| ==> 0 < ds[i] <= es[i]
    ensures NoZeroInterval(ds) && NoZeroInterval(es)
    ensures MeanRatio(es) <= MeanRatio(ds)
  {
    var rd := Ratios(ds);
    var re := Ratios(es);
    forall i | 0 <= i < |ds| ensures re[i] <= rd[i] {
      RatioMonotone(ds[i], es[i]);
    }
    SumMonotone(re, rd);
    DivMonotone(Sum(re), Sum(rd), |ds| as real);
  }

  /** With positive intervals and a non-negative difficulty, lengthening
      intervals never raises the result. */
  lemma LongerIntervalsNeverRaise(difficulty: int, ts: seq<int>, us: seq<int>)
    requires difficulty >= 0 && |ts| == |us| >= 2
    requires forall i :: 0 < i < |ts| ==> 0 < ts[i] - ts[i - 1] <= us[i] - us[i - 1]
    ensures Recompute(difficulty, ts).Ok? && Recompute(difficulty, us).Ok?
    ensures Recompute(difficulty, us).value <= Recompute(difficulty, ts).value
  {
    IntervalsPointwise(ts, us);
    var ds := Intervals(ts);
    var es := Intervals(us);
    MeanMonotone(ds, es);
    NextMonotone(difficulty, MeanRatio(es), MeanRatio(ds));
    assert Recompute(difficulty, ts) == Ok(Next(difficulty, MeanRatio(ds)));
    assert Recompute(difficulty, us) == Ok(Next(difficulty, MeanRatio(es)));
  }

  // ---------------------------------------------------------------------
  // The limit of a main block

  /** addLimit: decode, set `limit` to Buffer.from(MAIN difficulty in hex),
      encode. The limit is a fixed 32-byte field, so only a difficulty of 64
      hexadecimal digits yields an encodable block. */
  function AddLimit(items: Items, main: Bytes): (r: Result<Bytes, DifficultyError>)
    ensures r.Ok? <==> Serializer.MainBlockFromBuffer(main).Ok? && GetDifficulty(items, MAIN).Ok? &&
                       |Hex.HexBuffer(GetDifficulty(items, MAIN).value)| == Serializer.HASH_SIZE
    ensures r.Ok? ==>
              (Serializer.MainBlockFromBuffer(r.value) ==
               Ok(Serializer.MainBlockFromBuffer(main).value.(limit := Hex.HexBuffer(GetDifficulty(items, MAIN).value))))
  {
    match Serializer.MainBlockFromBuffer(main)
    case Err(_) => Err(DecodeFailed)
    case Ok(block) =>
      match GetDifficulty(items, MAIN)
      case Err(e) => Err(e)
      case Ok(difficulty) =>
        var updated := block.(limit := Hex.HexBuffer(difficulty));
        if !Serializer.ValidMainBlock(updated) then Err(LimitNotFixedSize(|updated.limit|))
        else
          Serializer.MainBlockBufferRoundTrip(updated);
          Ok(Serializer.EncodeMainBlock(updated))
  }

  /** getLimitFromBlock: the limit as a number, times the coefficient. As
      written the Buffer is interpolated into `0x${...}` as UTF-8 text; the
      intended reading takes its big-endian value. */
  function GetLimitFromBlock(reading: Reading, main: Bytes, t: DifficultyType): (r: Result<int, DifficultyError>)
    ensures r.Ok? ==> Serializer.MainBlockFromBuffer(main).Ok?
    ensures Serializer.MainBlockFromBuffer(main).Ok? ==>
              r == LimitValue(reading, Serializer.MainBlockFromBuffer(main).value.limit, t)
  {
    match Serializer.MainBlockFromBuffer(main)
    case Err(_) => Err(DecodeFailed)
    case Ok(block) => LimitValue(reading, block.limit, t)
  }

  /** The number a limit field stands for, times the coefficient: as
      written BigInt(`0x${limit}`), which needs the bytes to be the ASCII
      text of hexadecimal digits; as intended their big-endian value. */
  function LimitValue(reading: Reading, limit: Bytes, t: DifficultyType): (r: Result<int, DifficultyError>)
    ensures reading == Intended ==> r == Ok(Hex.BytesValue(limit) * Coefficient(t))
    ensures reading == AsWritten ==>
              (r.Ok? <==> Hex.TextHexValue(limit).Some?) &&
              (r.Ok? ==> r.value == Hex.TextHexValue(limit).value * Coefficient(t))
  {
    var value := if reading == AsWritten then Hex.TextHexValue(limit) else Some(Hex.BytesValue(limit));
    match value
    case None => Err(LimitNotHex)
    case Some(v) => Ok(v * Coefficient(t))
  }

  /** Whenever the difficulty's hexadecimal text has 64 digits, addLimit
      succeeds and its limit is those digits as 32 bytes. */
  lemma AddLimitSucceeds(items: Items, main: Bytes)
    requires Serializer.MainBlockFromBuffer(main).Ok?
    requires GetDifficulty(items, MAIN).Ok? && GetDifficulty(items, MAIN).value >= 0
    requires |Hex.HexDigits(GetDifficulty(items, MAIN).value)| == 64
    ensures AddLimit(items, main).Ok?
    ensures Serializer.MainBlockFromBuffer(AddLimit(items, main).value) ==
              Ok(Serializer.MainBlockFromBuffer(main).value.(limit := Hex.HexBuffer(GetDifficulty(items, MAIN).value)))
  {
  }

  /** Reading the limit back from a block addLimit produced. */
  lemma ReadAddedLimit(reading: Reading, items: Items, main: Bytes, t: DifficultyType)
    requires AddLimit(items, main).Ok?
    ensures GetLimitFromBlock(reading, AddLimit(items, main).value, t) ==
              LimitValue(reading, Hex.HexBuffer(GetDifficulty(items, MAIN).value), t)
  {
  }

  /** A difficulty of exactly 64 hexadecimal digits gives a 32-byte limit
      that, read back as intended, yields the difficulty times the
      coefficient. */
  lemma LimitRoundTrip(items: Items, main: Bytes, t: DifficultyType)
    requires Serializer.MainBlockFromBuffer(main).Ok?
    requires GetDifficulty(items, MAIN).Ok? && GetDifficulty(items, MAIN).value >= 0
    requires |Hex.HexDigits(GetDifficulty(items, MAIN).value)| == 64
    ensures AddLimit(items, main).Ok?
    ensures GetLimitFromBlock(Intended, AddLimit(items, main).value, t) == Ok(GetDifficulty(items, MAIN).value * Coefficient(t))
  {
    var d := GetDifficulty(items, MAIN).value;
    AddLimitSucceeds(items, main);
    ReadAddedLimit(Intended, items, main, t);
    Hex.EvenHexValue(Hex.HexDigits(d));
    Hex.HexDigitsValue(d);
  }

  lemma {:induction false} Pow16Add(a: nat, b: nat)
    ensures Hex.Pow16(a + b) == Hex.Pow16(a) * Hex.Pow16(b)
  {
    if a > 0 {
      Pow16Add(a - 1, b);
      assert Hex.Pow16(a + b) == 16 * Hex.Pow16(a - 1 + b);
    }
  }

  /** The default difficulty is 16^64 - 1. */
  lemma DefaultIsAllOnes()
    ensures Hex.Pow16(64) - 1 == DEFAULT_DIFFICULTY
  {
    assert Hex.Pow16(1) == 16;
    Pow16Add(1, 1);
    Pow16Add(2, 2);
    Pow16Add(4, 4);
    assert Hex.Pow16(8) == 0x1_0000_0000;
    Pow16Add(8, 8);
    assert Hex.Pow16(16) == 0x1_0000_0000_0000_0000;
    Pow16Add(16, 16);
    assert Hex.Pow16(32) == 0x1_0000_0000_0000_0000_0000_0000_0000_0000;
    Pow16Add(32, 32);
  }

  /** 16^k - 1 is written with k digits f. */
  lemma {:induction false} AllOnesDigits(k: nat)
    requires k >= 1
    ensures Hex.HexDigits(Hex.Pow16(k) - 1) == seq(k, _ => 15)
  {
    if k > 1 {
      AllOnesDigits(k - 1);
      var v := Hex.Pow16(k) - 1;
      assert v == 16 * (Hex.Pow16(k - 1) - 1) + 15;
      assert v / 16 == Hex.Pow16(k - 1) - 1 && v % 16 == 15;
      assert seq(k - 1, _ => 15) + [15] == seq(k, _ => 15);
    }
  }

  lemma {:induction false} AllOnesBytes(k: nat)
    ensures Hex.HexToBytes(seq(2 * k, _ => 15)) == seq(k, _ => 255)
  {
    if k > 0 {
      AllOnesBytes(k - 1);
      assert seq(2 * k, _ => 15)[2..] == seq(2 * (k - 1), _ => 15);
      assert [255] + seq(k - 1, _ => 255) == seq(k, _ => 255);
    }
  }

  /** As written, the limit reads back only if all its bytes are ASCII
      characters of hexadecimal digits: with nothing stored, the default
      difficulty's 32 bytes of 0xff make getLimitFromBlock throw. */
  lemma DefaultLimitUnreadable(items: Items, main: Bytes, t: DifficultyType)
    requires Serializer.MainBlockFromBuffer(main).Ok?
    requires Named("MAIN") !in items
    ensures AddLimit(items, main).Ok?
    ensures GetLimitFromBlock(AsWritten, AddLimit(items, main).value, t) == Err(LimitNotHex)
    ensures GetLimitFromBlock(Intended, AddLimit(items, main).value, t) == Ok(DEFAULT_DIFFICULTY * Coefficient(t))
  {
    DefaultLimitText();
    assert GetDifficulty(items, MAIN) == Ok(DEFAULT_DIFFICULTY);
    LimitRoundTrip(items, main, t);
    ReadAddedLimit(AsWritten, items, main, t);
  }

  /** The default difficulty is 64 digits f; as a buffer it is 32 bytes of
      0xff, which is not the text of a hexadecimal number. */
  lemma DefaultLimitText()
    ensures |Hex.HexDigits(DEFAULT_DIFFICULTY)| == 64
    ensures Hex.TextHexValue(Hex.HexBuffer(DEFAULT_DIFFICULTY)) == None
  {
    DefaultLimitBytes();
    AllFFNotText();
  }

  lemma DefaultLimitBytes()
    ensures Hex.HexDigits(DEFAULT_DIFFICULTY) == seq(64, _ => 15)
    ensures Hex.HexBuffer(DEFAULT_DIFFICULTY) == seq(32, _ => 255)
  {
    DefaultIsAllOnes();
    AllOnesDigits(64);
    AllOnesBytes(32);
  }

  lemma AllFFNotText()
    ensures Hex.TextHexValue(seq(32, _ => 255)) == None
  {
    var limit: Bytes := seq(32, _ => 255);
    assert Hex.AsciiHexDigit(limit[0]) == None;
  }
}
