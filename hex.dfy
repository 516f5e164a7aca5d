/** The number/text/Buffer conversions the ledger performs with hexadecimal
    strings: BigInt.prototype.toString(16), String.prototype.padStart with "0",
    Buffer.from(text, "hex"), and BigInt(`0x${buffer}`). */
module Hex {
  import opened Common

  /** A hexadecimal digit 0..15; text is modelled as its digit values. */
  type digit = x: int | 0 <= x < 16

  /** The digits of v.toString(16): most significant first, no leading zero,
      "0" for zero. */
  function HexDigits(v: nat): (ds: seq<digit>)
    ensures |ds| >= 1
    ensures |ds| > 1 ==> ds[0] != 0
    decreases v
  {
    if v < 16 then [v] else HexDigits(v / 16) + [v % 16]
  }

  /** text.padStart(n, "0"). */
  function PadStart(ds: seq<digit>, n: nat): (r: seq<digit>)
    ensures |r| == if |ds| >= n then |ds| else n
    ensures r[|r| - |ds|..] == ds
    ensures forall i :: 0 <= i < |r| - |ds| ==> r[i] == 0
  {
    if |ds| >= n then ds else seq(n - |ds|, _ => 0) + ds
  }

  /** Buffer.from(text, "hex") for text made of hex digits: consecutive pairs
      become bytes, and a trailing unpaired digit is dropped. */
  function HexToBytes(ds: seq<digit>): (bs: Bytes)
    ensures |bs| == |ds| / 2
  {
    if |ds| < 2 then [] else [ds[0] as int * 16 + ds[1] as int] + HexToBytes(ds[2..])
  }

  /** Buffer.from(n.toString(16), "hex"): an odd trailing digit is dropped,
      and the "-" of a negative number ends the parse at once. */
  function HexBuffer(n: int): (bs: Bytes)
    ensures n >= 0 ==> |bs| == |HexDigits(n)| / 2
    ensures n < 0 ==> bs == []
  {
    if n < 0 then [] else HexToBytes(HexDigits(n))
  }

  /** buffer.toString("hex"): two digits per byte. */
  function BytesToHex(bs: Bytes): (ds: seq<digit>)
    ensures |ds| == 2 * |bs|
  {
    if bs == [] then [] else [bs[0] / 16, bs[0] % 16] + BytesToHex(bs[1..])
  }

  /** The number that a digit string denotes, most significant first. */
  function DigitsValue(ds: seq<digit>): nat
  {
    if ds == [] then 0 else DigitsValue(ds[..|ds| - 1]) * 16 + ds[|ds| - 1]
  }

  /** The number that a byte string denotes, big-endian (most significant
      byte first). */
  function BytesValue(bs: Bytes): nat
  {
    if bs == [] then 0 else BytesValue(bs[..|bs| - 1]) * 256 + bs[|bs| - 1]
  }

  /** A big-endian number: the `width` low bytes of v, most significant first. */
  function BigEndian(v: nat, width: nat): (bs: Bytes)
    ensures |bs| == width
  {
    if width == 0 then [] else BigEndian(v / 256, width - 1) + [v % 256]
  }

  function Pow256(n: nat): (r: nat)
    ensures r >= 1
  {
    if n == 0 then 1 else 256 * Pow256(n - 1)
  }

  /** Reading the digits of toString(16) back gives the number. */
  lemma {:induction false} HexDigitsValue(v: nat)
    ensures DigitsValue(HexDigits(v)) == v
    decreases v
  {
    if v >= 16 {
      HexDigitsValue(v / 16);
      var ds := HexDigits(v / 16) + [v % 16];
      assert ds[..|ds| - 1] == HexDigits(v / 16);
    }
  }

  /** The value of a big-endian byte string is below 256^width. */
  lemma {:induction false} BytesValueBound(bs: Bytes)
    ensures BytesValue(bs) < Pow256(|bs|)
  {
    if bs != [] {
      BytesValueBound(bs[..|bs| - 1]);
    }
  }

  /** BigEndian is the inverse of BytesValue on numbers that fit. */
  lemma {:induction false} BigEndianValue(v: nat, width: nat)
    requires v < Pow256(width)
    ensures BytesValue(BigEndian(v, width)) == v
  {
    if width > 0 {
      BigEndianValue(v / 256, width - 1);
      var bs := BigEndian(v, width);
      assert bs[..|bs| - 1] == BigEndian(v / 256, width - 1);
    }
  }

  /** BytesValue is injective on byte strings of one width. */
  lemma {:induction false} BytesValueInjective(a: Bytes, b: Bytes)
    requires |a| == |b| && BytesValue(a) == BytesValue(b)
    ensures a == b
  {
    if a != [] {
      var n := |a|;
      assert a[n - 1] == BytesValue(a) % 256 == b[n - 1];
      BytesValueInjective(a[..n - 1], b[..n - 1]);
      assert a == a[..n - 1] + [a[n - 1]];
      assert b == b[..n - 1] + [b[n - 1]];
    }
  }

  /** A byte below 256 is encoded by padStart(2) and Buffer.from(hex) as
      exactly that one byte. */
  lemma OneByteEncoding(v: nat)
    requires v < 256
    ensures HexToBytes(PadStart(HexDigits(v), 2)) == [v]
  {
    TwoDigits(v);
    var ds: seq<digit> := [v / 16, v % 16];
    assert HexToBytes(ds) == [ds[0] as int * 16 + ds[1] as int] + HexToBytes(ds[2..]);
  }

  lemma TwoDigits(v: nat)
    requires v < 256
    ensures PadStart(HexDigits(v), 2) == [v / 16, v % 16]
  {
    if v < 16 {
      assert HexDigits(v) == [v];
    } else {
      assert HexDigits(v / 16) == [v / 16];
    }
  }

  /** buffer.toString("hex") read back by Buffer.from(text, "hex") gives the
      buffer. */
  lemma {:induction false} HexRoundTrip(bs: Bytes)
    ensures HexToBytes(BytesToHex(bs)) == bs
  {
    if bs != [] {
      HexRoundTrip(bs[1..]);
      assert BytesToHex(bs)[2..] == BytesToHex(bs[1..]);
    }
  }

  /** Appending a digit pair to an even-length digit string appends one
      byte. */
  lemma {:induction false} HexToBytesAppend(ds: seq<digit>, a: digit, b: digit)
    requires |ds| % 2 == 0
    ensures HexToBytes(ds + [a, b]) == HexToBytes(ds) + [a as int * 16 + b as int]
    decreases |ds|
  {
    if |ds| >= 2 {
      assert (ds + [a, b])[2..] == ds[2..] + [a, b];
      HexToBytesAppend(ds[2..], a, b);
    } else {
      assert ds == [];
    }
  }

  /** An even number of digits reads, byte by byte, as the number they
      denote. */
  lemma {:induction false} EvenHexValue(ds: seq<digit>)
    requires |ds| % 2 == 0
    ensures BytesValue(HexToBytes(ds)) == DigitsValue(ds)
    decreases |ds|
  {
    if ds != [] {
      var n := |ds|;
      var init := ds[..n - 2];
      assert ds == init + [ds[n - 2], ds[n - 1]];
      HexToBytesAppend(init, ds[n - 2], ds[n - 1]);
      EvenHexValue(init);
      var bs := HexToBytes(ds);
      assert bs[..|bs| - 1] == HexToBytes(init);
      assert ds[..n - 1][..n - 2] == init;
    }
  }

  function Pow16(k: nat): (r: nat)
    ensures r >= 1
  {
    if k == 0 then 1 else 16 * Pow16(k - 1)
  }

  /** A number below 16^k has at most k digits. */
  lemma {:induction false} HexDigitsAtMost(v: nat, k: nat)
    requires k >= 1 && v < Pow16(k)
    ensures |HexDigits(v)| <= k
    decreases v
  {
    if v >= 16 {
      assert k >= 2;
      assert v / 16 < Pow16(k - 1);
      HexDigitsAtMost(v / 16, k - 1);
    }
  }

  /** A number at least 16^k has more than k digits. */
  lemma {:induction false} HexDigitsAtLeast(v: nat, k: nat)
    requires Pow16(k) <= v
    ensures |HexDigits(v)| >= k + 1
    decreases v
  {
    if k > 0 {
      assert v >= 16;
      assert Pow16(k - 1) <= v / 16;
      HexDigitsAtLeast(v / 16, k - 1);
    }
  }

  /** Buffer.from(n.toString(16), "hex") has 8 bytes exactly for the numbers
      from 16^15 up to 16^17: fewer digits give fewer bytes, and a
      negative number gives none. */
  lemma EightByteNonces(n: int)
    ensures |HexBuffer(n)| == 8 <==> Pow16(15) <= n < Pow16(17)
  {
    if n >= 0 {
      if n < Pow16(15) {
        HexDigitsAtMost(n, 15);
      } else if n < Pow16(17) {
        HexDigitsAtLeast(n, 15);
        HexDigitsAtMost(n, 17);
      } else {
        HexDigitsAtLeast(n, 17);
      }
    }
  }

  // ---------------------------------------------------------------------
  // BigInt(`0x${buffer}`): the template literal turns the Buffer into text
  // by UTF-8 decoding (a malformed sequence becomes U+FFFD), not into
  // hexadecimal. StringToBigInt (section 7.1.4.1.1 of ECMA-262) strips white
  // space and line terminators from both ends and reads what follows "0x"
  // as hexadecimal digits, throwing a SyntaxError otherwise. The text
  // begins with "0x", so only white space at its end can be stripped.

  /** The hexadecimal digit that an ASCII character code stands for. */
  function AsciiHexDigit(b: byte): Option<digit>
  {
    if 0x30 <= b <= 0x39 then Some(b - 0x30)
    else if 0x41 <= b <= 0x46 then Some(b - 0x41 + 10)
    else if 0x61 <= b <= 0x66 then Some(b - 0x61 + 10)
    else None
  }

  /** The three-byte UTF-8 encodings of the white space BigInt strips:
      U+1680, U+2000 to U+200A, U+2028, U+2029, U+202F, U+205F, U+3000 and
      U+FEFF. */
  predicate ThreeByteSpace(a: byte, b: byte, c: byte)
  {
    || (a == 0xE1 && b == 0x9A && c == 0x80)
    || (a == 0xE2 && b == 0x80 && (0x80 <= c <= 0x8A || c == 0xA8 || c == 0xA9 || c == 0xAF))
    || (a == 0xE2 && b == 0x81 && c == 0x9F)
    || (a == 0xE3 && b == 0x80 && c == 0x80)
    || (a == 0xEF && b == 0xBB && c == 0xBF)
  }

  /** The length of the UTF-8 encoding of the white-space or line-terminator
      character that bs starts with (section 7.2 and 7.3 of ECMA-262: TAB,
      LF, VT, FF, CR, SPACE, U+00A0 and the characters above), or 0 when it
      starts with none. */
  function SpaceLength(bs: Bytes): (n: nat)
    ensures n <= |bs|
    ensures n > 0 ==> AsciiHexDigit(bs[0]).None?
  {
    if bs == [] then 0
    else if bs[0] == 0x20 || 0x09 <= bs[0] <= 0x0D then 1
    else if |bs| >= 2 && bs[0] == 0xC2 && bs[1] == 0xA0 then 2
    else if |bs| >= 3 && ThreeByteSpace(bs[0], bs[1], bs[2]) then 3
    else 0
  }

  /** bs decodes to white space and line terminators only. */
  predicate SpaceText(bs: Bytes)
    decreases |bs|
  {
    bs == [] || (SpaceLength(bs) > 0 && SpaceText(bs[SpaceLength(bs)..]))
  }

  /** The number of leading bytes that are ASCII hexadecimal digits. */
  function DigitRun(bs: Bytes): (k: nat)
    ensures k <= |bs|
    ensures forall i :: 0 <= i < k ==> AsciiHexDigit(bs[i]).Some?
    ensures k < |bs| ==> AsciiHexDigit(bs[k]).None?
  {
    if bs == [] || AsciiHexDigit(bs[0]).None? then 0 else 1 + DigitRun(bs[1..])
  }

  /** The digits of bytes that are all ASCII hexadecimal digits. */
  function AsciiDigits(bs: Bytes): (ds: seq<digit>)
    requires forall i :: 0 <= i < |bs| ==> AsciiHexDigit(bs[i]).Some?
    ensures |ds| == |bs|
    ensures forall i :: 0 <= i < |bs| ==> ds[i] == AsciiHexDigit(bs[i]).value
  {
    seq(|bs|, i requires 0 <= i < |bs| => AsciiHexDigit(bs[i]).value)
  }

  /** BigInt(`0x${buffer}`): Some(value) when the buffer's text is a
      non-empty run of ASCII hexadecimal digits followed only by white
      space, None when BigInt throws a SyntaxError. Bytes of 0x80 and above
      are never hexadecimal digits. */
  function TextHexValue(bs: Bytes): Option<nat>
  {
    var k := DigitRun(bs);
    if k > 0 && SpaceText(bs[k..]) then Some(DigitsValue(AsciiDigits(bs[..k]))) else None
  }

  lemma {:induction false} DigitRunOf(ds: Bytes, ws: Bytes)
    requires forall i :: 0 <= i < |ds| ==> AsciiHexDigit(ds[i]).Some?
    requires ws == [] || AsciiHexDigit(ws[0]).None?
    ensures DigitRun(ds + ws) == |ds|
    decreases |ds|
  {
    if ds != [] {
      assert (ds + ws)[1..] == ds[1..] + ws;
      DigitRunOf(ds[1..], ws);
    }
  }

  /** The text is read as its digits whatever white space follows them, and
      is not a number when anything else follows. */
  lemma TextHexValueOf(ds: Bytes, ws: Bytes)
    requires ds != [] && forall i :: 0 <= i < |ds| ==> AsciiHexDigit(ds[i]).Some?
    ensures SpaceText(ws) ==> TextHexValue(ds + ws) == Some(DigitsValue(AsciiDigits(ds)))
    ensures (ws == [] || AsciiHexDigit(ws[0]).None?) && !SpaceText(ws) ==> TextHexValue(ds + ws) == None
  {
    if ws == [] || AsciiHexDigit(ws[0]).None? {
      DigitRunOf(ds, ws);
      assert (ds + ws)[..|ds|] == ds;
      assert (ds + ws)[|ds|..] == ws;
    } else {
      assert SpaceLength(ws) == 0;
    }
  }

  /** "0" followed by a no-break space (UTF-8 C2 A0) reads as 0, and
      followed by a line separator (E2 80 A8) too; followed by a NUL it
      throws. */
  lemma TrailingSpaces()
    ensures TextHexValue([0x30, 0xC2, 0xA0]) == Some(0)
    ensures TextHexValue([0x30, 0xE2, 0x80, 0xA8]) == Some(0)
    ensures TextHexValue([0x30, 0x00]) == None
  {
    assert SpaceText([0xC2, 0xA0][2..]);
    TextHexValueOf([0x30], [0xC2, 0xA0]);
    assert [0x30] + [0xC2, 0xA0] == [0x30, 0xC2, 0xA0];
    assert SpaceText([0xE2, 0x80, 0xA8][3..]);
    TextHexValueOf([0x30], [0xE2, 0x80, 0xA8]);
    assert [0x30] + [0xE2, 0x80, 0xA8] == [0x30, 0xE2, 0x80, 0xA8];
    TextHexValueOf([0x30], [0x00]);
    assert [0x30] + [0x00] == [0x30, 0x00];
  }
}
