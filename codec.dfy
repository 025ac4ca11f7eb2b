/**
 * The value encodings verify.ts relies on and takes from the ethers library
 * and the JavaScript runtime:
 *  - "0x…" hex data turned into bytes (the first step of `abi.decode`);
 *  - ABI `uint256` and `uint256[8]` decoding: 32-byte big-endian words,
 *    as in the "Formal Specification of the Encoding" of the Solidity
 *    Contract ABI Specification;
 *  - `BigNumber.toHexString` / `hexlify`: the canonical hex quantity;
 *  - the decimal rendering of an integer inside a template string.
 * The library code itself is not part of this model; these definitions are
 * simple stand-ins with their round trips proved.
 */
module Codec {
  import opened Wrappers

  type byte = x: int | 0 <= x < 256

  function Pow(base: nat, exp: nat): nat
  {
    if exp == 0 then 1 else base * Pow(base, exp - 1)
  }

  /** Bytes in one ABI word. */
  const WordBytes: nat := 32

  /** 2^256: every decoded `uint256` lies below it. */
  const Uint256Bound: nat := Pow(256, 32)

  // ---------------------------------------------------------------------
  // Hex digits

  predicate IsHexDigit(c: char)
  {
    '0' <= c <= '9' || 'a' <= c <= 'f' || 'A' <= c <= 'F'
  }

  predicate IsLowerHexDigit(c: char)
  {
    '0' <= c <= '9' || 'a' <= c <= 'f'
  }

  predicate AllHexDigits(d: string)
  {
    forall i :: 0 <= i < |d| ==> IsHexDigit(d[i])
  }

  predicate AllLowerHexDigits(d: string)
  {
    forall i :: 0 <= i < |d| ==> IsLowerHexDigit(d[i])
  }

  function DigitValue(c: char): (v: nat)
    requires IsHexDigit(c)
    ensures v < 16
  {
    if '0' <= c <= '9' then c as nat - '0' as nat
    else if 'a' <= c <= 'f' then c as nat - 'a' as nat + 10
    else c as nat - 'A' as nat + 10
  }

  function LowerDigit(d: nat): (c: char)
    requires d < 16
    ensures IsLowerHexDigit(c) && DigitValue(c) == d
  {
    if d < 10 then ('0' as int + d) as char else ('a' as int + d - 10) as char
  }

  lemma LowerDigitOfValue(c: char)
    requires IsLowerHexDigit(c)
    ensures LowerDigit(DigitValue(c)) == c
  {
  }

  // ---------------------------------------------------------------------
  // Hex data <-> bytes

  /** What ethers accepts as hex data: "0x" followed by an even number of
      hex digits of either case. */
  predicate IsHexData(s: string)
  {
    |s| >= 2 && s[..2] == "0x" && |s| % 2 == 0 && AllHexDigits(s[2..])
  }

  function DigitPairsToBytes(d: string): (bs: seq<byte>)
    requires |d| % 2 == 0 && AllHexDigits(d)
    ensures 2 * |bs| == |d|
  {
    if |d| == 0 then []
    else [DigitValue(d[0]) * 16 + DigitValue(d[1])] + DigitPairsToBytes(d[2..])
  }

  function BytesToDigitPairs(bs: seq<byte>): (d: string)
    ensures |d| == 2 * |bs| && AllLowerHexDigits(d)
  {
    if |bs| == 0 then ""
    else [LowerDigit(bs[0] / 16), LowerDigit(bs[0] % 16)] + BytesToDigitPairs(bs[1..])
  }

  /** The byte string that hex data denotes; None when it is not hex data
      (ethers throws "invalid arrayify value" or "hex data is odd-length"). */
  function HexToBytes(s: string): (r: Option<seq<byte>>)
    ensures r.Some? <==> IsHexData(s)
    ensures r.Some? ==> 2 * |r.value| + 2 == |s|
  {
    if IsHexData(s) then Some(DigitPairsToBytes(s[2..])) else None
  }

  /** Hex data for a byte string, as an ABI encoder writes it. */
  function EncodeHexData(bs: seq<byte>): (s: string)
    ensures IsHexData(s) && |s| == 2 + 2 * |bs|
  {
    "0x" + BytesToDigitPairs(bs)
  }

  lemma {:induction false} DigitPairsRoundTrip(bs: seq<byte>)
    ensures DigitPairsToBytes(BytesToDigitPairs(bs)) == bs
  {
    if |bs| > 0 {
      var d := BytesToDigitPairs(bs);
      assert d[2..] == BytesToDigitPairs(bs[1..]);
      DigitPairsRoundTrip(bs[1..]);
    }
  }

  lemma HexDataRoundTrip(bs: seq<byte>)
    ensures HexToBytes(EncodeHexData(bs)) == Some(bs)
  {
    assert EncodeHexData(bs)[2..] == BytesToDigitPairs(bs);
    DigitPairsRoundTrip(bs);
  }

  // ---------------------------------------------------------------------
  // Big-endian words

  function BigEndian(bs: seq<byte>): (v: nat)
    ensures v < Pow(256, |bs|)
  {
    if |bs| == 0 then 0
    else
      var high := BigEndian(bs[..|bs| - 1]);
      assert high * 256 + bs[|bs| - 1] < Pow(256, |bs| - 1) * 256 by {
        assert high + 1 <= Pow(256, |bs| - 1);
      }
      high * 256 + bs[|bs| - 1]
  }

  function ToBigEndian(n: nat, width: nat): (bs: seq<byte>)
    ensures |bs| == width
  {
    if width == 0 then [] else ToBigEndian(n / 256, width - 1) + [n % 256]
  }

  lemma {:induction false} BigEndianRoundTrip(n: nat, width: nat)
    requires n < Pow(256, width)
    ensures BigEndian(ToBigEndian(n, width)) == n
  {
    if width > 0 {
      var bs := ToBigEndian(n, width);
      assert bs[..width - 1] == ToBigEndian(n / 256, width - 1);
      BigEndianRoundTrip(n / 256, width - 1);
    }
  }

  /** The i-th 32-byte word of an ABI payload, read big-endian. */
  function Word(bs: seq<byte>, i: nat): (v: nat)
    requires WordBytes * (i + 1) <= |bs|
    ensures v < Uint256Bound
  {
    BigEndian(bs[WordBytes * i .. WordBytes * (i + 1)])
  }

  // ---------------------------------------------------------------------
  // ABI decoding

  /** `abi.decode(["uint256"], s)[0]`: the first word of the payload; bytes
      after it are not read. None where the decoder throws. */
  function DecodeUint256(s: string): (r: Option<nat>)
    ensures r.Some? <==> IsHexData(s) && |s| >= 2 + 2 * WordBytes
    ensures r.Some? ==> r.value < Uint256Bound
  {
    match HexToBytes(s)
    case None => None
    case Some(bs) => if |bs| < WordBytes then None else Some(Word(bs, 0))
  }

  /** `abi.decode(["uint<256>[n]"], s)[0]`: a static array is n words in
      place. None where the decoder throws. */
  function DecodeUint256Array(s: string, n: nat): (r: Option<seq<nat>>)
    ensures r.Some? <==> IsHexData(s) && |s| >= 2 + 2 * WordBytes * n
    ensures r.Some? ==> |r.value| == n
    ensures r.Some? ==> AllUint256(r.value)
  {
    match HexToBytes(s)
    case None => None
    case Some(bs) =>
      if |bs| < WordBytes * n then None
      else Some(seq(n, i requires 0 <= i < n => Word(bs, i)))
  }

  /** Every element is a valid `uint256`. */
  predicate AllUint256(ws: seq<nat>)
  {
    forall i :: 0 <= i < |ws| ==> ws[i] < Uint256Bound
  }

  function EncodeWords(ws: seq<nat>): (bs: seq<byte>)
    ensures |bs| == WordBytes * |ws|
  {
    if |ws| == 0 then [] else ToBigEndian(ws[0], WordBytes) + EncodeWords(ws[1..])
  }

  /** ABI encoding of one `uint256`. */
  function EncodeUint256(n: nat): string
  {
    EncodeHexData(ToBigEndian(n, WordBytes))
  }

  /** ABI encoding of a static `uint256` array. */
  function EncodeUint256Array(ws: seq<nat>): string
  {
    EncodeHexData(EncodeWords(ws))
  }

  lemma DecodeUint256RoundTrip(n: nat)
    requires n < Uint256Bound
    ensures DecodeUint256(EncodeUint256(n)) == Some(n)
  {
    var bs := ToBigEndian(n, WordBytes);
    HexDataRoundTrip(bs);
    assert bs[WordBytes * 0 .. WordBytes * 1] == bs;
    BigEndianRoundTrip(n, WordBytes);
  }

  lemma {:induction false} EncodeWordsSlice(ws: seq<nat>, i: nat)
    requires i < |ws|
    ensures WordBytes * (i + 1) <= |EncodeWords(ws)|
    ensures EncodeWords(ws)[WordBytes * i .. WordBytes * (i + 1)] == ToBigEndian(ws[i], WordBytes)
  {
    var head := ToBigEndian(ws[0], WordBytes);
    var tail := EncodeWords(ws[1..]);
    assert EncodeWords(ws) == head + tail;
    if i > 0 {
      EncodeWordsSlice(ws[1..], i - 1);
      assert (head + tail)[WordBytes * i .. WordBytes * (i + 1)]
          == tail[WordBytes * (i - 1) .. WordBytes * i];
    }
  }

  lemma DecodeUint256ArrayRoundTrip(ws: seq<nat>)
    requires AllUint256(ws)
    ensures DecodeUint256Array(EncodeUint256Array(ws), |ws|) == Some(ws)
  {
    var bs := EncodeWords(ws);
    HexDataRoundTrip(bs);
    var decoded := DecodeUint256Array(EncodeUint256Array(ws), |ws|).value;
    assert HexToBytes(EncodeUint256Array(ws)) == Some(bs);
    assert |decoded| == |ws|;
    forall i | 0 <= i < |ws|
      ensures decoded[i] == ws[i]
    {
      EncodeWordsSlice(ws, i);
      BigEndianRoundTrip(ws[i], WordBytes);
      assert decoded[i] == Word(bs, i);
    }
    assert decoded == ws;
  }

  // ---------------------------------------------------------------------
  // Canonical hex quantities (`BigNumber.toHexString`, `hexlify`)

  /** The lower-case hex digits of n, most significant first, with no
      leading zero; empty for zero. */
  function MinimalDigits(n: nat): (d: string)
    ensures AllLowerHexDigits(d)
    ensures n == 0 <==> d == ""
    ensures n > 0 ==> d[0] != '0'
  {
    if n == 0 then "" else MinimalDigits(n / 16) + [LowerDigit(n % 16)]
  }

  /** The value of a string of hex digits, most significant first. */
  function HexValue(d: string): nat
    requires AllHexDigits(d)
  {
    if |d| == 0 then 0 else HexValue(d[..|d| - 1]) * 16 + DigitValue(d[|d| - 1])
  }

  /** The form ethers gives every number it renders: "0x", a positive even
      number of lower-case digits, and no leading zero byte except in
      "0x00" itself. */
  predicate IsCanonicalHex(s: string)
  {
    && |s| >= 4 && |s| % 2 == 0 && s[..2] == "0x"
    && AllLowerHexDigits(s[2..])
    && (s[2..4] == "00" ==> s == "0x00")
  }

  /** The number a "0x…" hex quantity denotes. */
  function HexQuantityValue(s: string): Option<nat>
  {
    if |s| >= 2 && s[..2] == "0x" && AllHexDigits(s[2..]) then Some(HexValue(s[2..])) else None
  }

  /** `BigNumber.toHexString()`: the minimal digits, padded with one zero to
      an even count, and "0x00" for zero. */
  function ToHexString(n: nat): (s: string)
    ensures IsCanonicalHex(s)
  {
    var d := MinimalDigits(n);
    if d == "" then "0x00"
    else if |d| % 2 == 1 then
      assert ("0x0" + d)[2..4] == ['0', d[0]];
      "0x0" + d
    else
      assert ("0x" + d)[2..4] == d[..2];
      "0x" + d
  }

  lemma {:induction false} HexValueOfMinimalDigits(n: nat)
    ensures HexValue(MinimalDigits(n)) == n
  {
    if n > 0 {
      var d := MinimalDigits(n);
      assert d[..|d| - 1] == MinimalDigits(n / 16);
      HexValueOfMinimalDigits(n / 16);
    }
  }

  lemma {:induction false} HexValueLeadingZero(d: string)
    requires AllHexDigits(d)
    ensures AllHexDigits("0" + d) && HexValue("0" + d) == HexValue(d)
  {
    if |d| > 0 {
      assert ("0" + d)[..|d|] == "0" + d[..|d| - 1];
      HexValueLeadingZero(d[..|d| - 1]);
    }
  }

  /** Reading back a rendered quantity gives the number rendered. */
  lemma ToHexStringRoundTrip(n: nat)
    ensures HexQuantityValue(ToHexString(n)) == Some(n)
  {
    var d := MinimalDigits(n);
    HexValueOfMinimalDigits(n);
    if d == "" {
      assert ToHexString(n)[2..] == "00";
      assert HexValue("0") == 0;
      assert HexValue("00") == HexValue("0") * 16;
    } else if |d| % 2 == 1 {
      assert ToHexString(n)[2..] == "0" + d;
      HexValueLeadingZero(d);
    } else {
      assert ToHexString(n)[2..] == d;
    }
  }

  /** Distinct numbers never share a rendering. */
  lemma ToHexStringInjective(m: nat, n: nat)
    requires ToHexString(m) == ToHexString(n)
    ensures m == n
  {
    ToHexStringRoundTrip(m);
    ToHexStringRoundTrip(n);
  }

  lemma {:induction false} MinimalDigitsOfValue(d: string)
    requires |d| > 0 && d[0] != '0' && AllLowerHexDigits(d)
    ensures MinimalDigits(HexValue(d)) == d
  {
    var init := d[..|d| - 1];
    var last := d[|d| - 1];
    LowerDigitOfValue(last);
    if |d| == 1 {
      assert HexValue(d) == DigitValue(last);
    } else {
      MinimalDigitsOfValue(init);
      assert d == init + [last];
    }
  }

  /** Every canonical hex string is the rendering of the number it denotes:
      together with ToHexStringRoundTrip, rendering is a bijection between
      numbers and canonical strings. */
  lemma CanonicalHexIsRendering(s: string)
    requires IsCanonicalHex(s)
    ensures HexQuantityValue(s).Some? && ToHexString(HexQuantityValue(s).value) == s
  {
    var d := s[2..];
    assert s == "0x" + d;
    assert HexQuantityValue(s) == Some(HexValue(d));
    if d[0] != '0' {
      MinimalDigitsOfValue(d);
    } else if d[1] == '0' {
      assert s[2..4] == "00";
      assert d == "00";
      assert HexValue("0") == 0;
      assert HexValue(d) == HexValue("0") * 16;
    } else {
      CanonicalHexWithPaddingZero(s, d);
    }
  }

  lemma CanonicalHexWithPaddingZero(s: string, d: string)
    requires IsCanonicalHex(s) && d == s[2..] && s == "0x" + d
    requires d[0] == '0' && d[1] != '0'
    ensures ToHexString(HexValue(d)) == s
  {
    var e := d[1..];
    PaddedDigits(s, d, e);
    HexValueLeadingZero(e);
    MinimalDigitsOfValue(e);
    RenderOddDigits(HexValue(e), e);
  }

  lemma PaddedDigits(s: string, d: string, e: string)
    requires IsCanonicalHex(s) && d == s[2..] && s == "0x" + d
    requires d[0] == '0' && d[1] != '0' && e == d[1..]
    ensures d == "0" + e && s == "0x0" + e
    ensures |e| > 0 && e[0] != '0' && |e| % 2 == 1 && AllLowerHexDigits(e)
  {
    assert forall i :: 0 <= i < |e| ==> e[i] == d[i + 1];
  }

  lemma RenderOddDigits(n: nat, e: string)
    requires MinimalDigits(n) == e && |e| % 2 == 1
    ensures ToHexString(n) == "0x0" + e
  {
  }

  // ---------------------------------------------------------------------
  // Decimal rendering of a JavaScript integer in a template string

  predicate IsDecimalDigit(c: char)
  {
    '0' <= c <= '9'
  }

  function DecimalChar(d: nat): (c: char)
    requires d < 10
    ensures IsDecimalDigit(c)
  {
    ('0' as int + d) as char
  }

  function DecimalDigitValue(c: char): (v: nat)
    requires IsDecimalDigit(c)
    ensures v < 10
  {
    c as int - '0' as int
  }

  /** Decimal digits of n, most significant first; "0" for zero and no
      leading zero otherwise. */
  function DecimalDigits(n: nat): (d: string)
    ensures |d| > 0 && forall i :: 0 <= i < |d| ==> IsDecimalDigit(d[i])
    ensures d[0] == '0' <==> n == 0
  {
    if n < 10 then [DecimalChar(n)] else DecimalDigits(n / 10) + [DecimalChar(n % 10)]
  }

  function DecimalValue(d: string): nat
    requires forall i :: 0 <= i < |d| ==> IsDecimalDigit(d[i])
  {
    if |d| == 0 then 0 else DecimalValue(d[..|d| - 1]) * 10 + DecimalDigitValue(d[|d| - 1])
  }

  lemma {:induction false} DecimalDigitsRoundTrip(n: nat)
    ensures DecimalValue(DecimalDigits(n)) == n
  {
    if n >= 10 {
      var d := DecimalDigits(n);
      assert d[..|d| - 1] == DecimalDigits(n / 10);
      DecimalDigitsRoundTrip(n / 10);
    }
  }

  /** `${i}` for an integer i that JavaScript writes in plain positional
      notation (its magnitude below 10^21). */
  function IntToDecimal(i: int): (s: string)
    ensures |s| > 0 && (s[0] == '-' <==> i < 0)
    ensures i >= 0 ==> s == DecimalDigits(i)
    ensures i < 0 ==> s[1..] == DecimalDigits(-i)
  {
    if i < 0 then "-" + DecimalDigits(-i) else DecimalDigits(i)
  }

  /** The digits of the rendering, after the sign, denote |i|. */
  lemma IntToDecimalValue(i: int)
    ensures i >= 0 ==> DecimalValue(IntToDecimal(i)) == i
    ensures i < 0 ==> DecimalValue(IntToDecimal(i)[1..]) == -i
  {
    if i >= 0 {
      DecimalDigitsRoundTrip(i);
    } else {
      DecimalDigitsRoundTrip(-i);
    }
  }
}
