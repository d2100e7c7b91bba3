/**
 * The textual form of a fingerprint stored in a card set's catalog: 16 hexadecimal digits.
 *
 * Bits are packed most significant first: digit k holds bits 4k .. 4k+3, bit 4k being its
 * high bit, so the 16 digits are the zero-padded hexadecimal numeral of the 64-bit number
 * whose binary numeral is the fingerprint. Encoding writes lower-case digits; decoding
 * accepts either case, and anything but exactly 16 hexadecimal digits is malformed.
 */
module HexCodec {
  import opened Wrappers
  import opened Fingerprints

  /** Number of hexadecimal digits in an encoded fingerprint. */
  const HashDigits: nat := 16

  /** The digits the encoder writes, indexed by their value. */
  const HexAlphabet: string := "0123456789abcdef"

  predicate IsLowerHexDigit(c: char) {
    '0' <= c <= '9' || 'a' <= c <= 'f'
  }

  predicate IsHexDigit(c: char) {
    IsLowerHexDigit(c) || 'A' <= c <= 'F'
  }

  /** Value of a hexadecimal digit of either case; `None` for any other character. */
  function DigitValue(c: char): (r: Option<nat>)
    ensures r.Some? <==> IsHexDigit(c)
    ensures r.Some? ==> r.value < 16
  {
    if '0' <= c <= '9' then Some(c as nat - '0' as nat)
    else if 'a' <= c <= 'f' then Some(c as nat - 'a' as nat + 10)
    else if 'A' <= c <= 'F' then Some(c as nat - 'A' as nat + 10)
    else None
  }

  /** The lower-case form of a hexadecimal digit; other characters are left alone. */
  function LowerHex(c: char): char {
    if 'A' <= c <= 'F' then (c as int - 'A' as int + 'a' as int) as char else c
  }

  /** Value of four bits, the first one most significant. */
  function NibbleValue(b: seq<bool>): (v: nat)
    requires |b| == 4
    ensures v < 16
  {
    (if b[0] then 8 else 0) + (if b[1] then 4 else 0) + (if b[2] then 2 else 0) + (if b[3] then 1 else 0)
  }

  /** The four bits of a digit value, the most significant first. */
  function NibbleBits(v: nat): (b: seq<bool>)
    requires v < 16
    ensures |b| == 4 && NibbleValue(b) == v
  {
    [v / 8 % 2 == 1, v / 4 % 2 == 1, v / 2 % 2 == 1, v % 2 == 1]
  }

  lemma NibbleBitsOfValue(b: seq<bool>)
    requires |b| == 4
    ensures NibbleBits(NibbleValue(b)) == b
  {
  }

  lemma DigitOfAlphabet(v: nat)
    requires v < 16
    ensures DigitValue(HexAlphabet[v]) == Some(v)
  {
  }

  lemma AlphabetOfDigit(c: char)
    requires IsHexDigit(c)
    ensures HexAlphabet[DigitValue(c).value] == LowerHex(c)
  {
  }

  /** One lower-case digit per group of four bits. */
  function EncodeBits(bits: seq<bool>): (s: string)
    requires |bits| % 4 == 0
    ensures |s| == |bits| / 4
    ensures forall i :: 0 <= i < |s| ==> IsLowerHexDigit(s[i])
    decreases |bits|
  {
    if |bits| == 0 then ""
    else [HexAlphabet[NibbleValue(bits[..4])]] + EncodeBits(bits[4..])
  }

  /** Four bits per digit; `None` as soon as one character is not a hexadecimal digit. */
  function DecodeDigits(s: string): (r: Option<seq<bool>>)
    ensures r.Some? <==> forall i :: 0 <= i < |s| ==> IsHexDigit(s[i])
    ensures r.Some? ==> |r.value| == 4 * |s|
    decreases |s|
  {
    if |s| == 0 then Some([])
    else match DigitValue(s[0])
      case None => None
      case Some(v) =>
        match DecodeDigits(s[1..])
        case None => None
        case Some(rest) => Some(NibbleBits(v) + rest)
  }

  /** The string written for a fingerprint in the catalog. */
  function Encode(f: Fingerprint): (s: string)
    ensures |s| == HashDigits
    ensures forall i :: 0 <= i < |s| ==> IsLowerHexDigit(s[i])
  {
    EncodeBits(f)
  }

  /** The fingerprint read back from a catalog string, if the string is well-formed. */
  function Decode(s: string): (r: Option<Fingerprint>)
    ensures r.Some? <==> |s| == HashDigits && forall i :: 0 <= i < |s| ==> IsHexDigit(s[i])
  {
    if |s| != HashDigits then None
    else match DecodeDigits(s)
      case None => None
      case Some(bits) => Some(bits)
  }

  lemma {:induction false} DecodeDigitsOfEncodeBits(bits: seq<bool>)
    requires |bits| % 4 == 0
    ensures DecodeDigits(EncodeBits(bits)) == Some(bits)
    decreases |bits|
  {
    if |bits| > 0 {
      var s := EncodeBits(bits);
      var v := NibbleValue(bits[..4]);
      DigitOfAlphabet(v);
      NibbleBitsOfValue(bits[..4]);
      assert s[1..] == EncodeBits(bits[4..]);
      DecodeDigitsOfEncodeBits(bits[4..]);
      assert bits == bits[..4] + bits[4..];
    }
  }

  /** Reading back the string written for a fingerprint gives the same 64 bits. */
  lemma DecodeEncode(f: Fingerprint)
    ensures Decode(Encode(f)) == Some(f)
  {
    DecodeDigitsOfEncodeBits(f);
  }

  lemma {:induction false} EncodeBitsOfDecodeDigits(s: string)
    requires DecodeDigits(s).Some?
    ensures EncodeBits(DecodeDigits(s).value) == seq(|s|, i requires 0 <= i < |s| => LowerHex(s[i]))
    decreases |s|
  {
    if |s| > 0 {
      var v := DigitValue(s[0]).value;
      var rest := DecodeDigits(s[1..]).value;
      var bits := NibbleBits(v) + rest;
      assert bits[..4] == NibbleBits(v);
      assert bits[4..] == rest;
      AlphabetOfDigit(s[0]);
      EncodeBitsOfDecodeDigits(s[1..]);
    }
  }

  /** Every well-formed string is the encoding of the fingerprint it decodes to, up to letter case. */
  lemma EncodeDecode(s: string)
    requires Decode(s).Some?
    ensures Encode(Decode(s).value) == seq(|s|, i requires 0 <= i < |s| => LowerHex(s[i]))
  {
    EncodeBitsOfDecodeDigits(s);
  }

  function Pow2(n: nat): (p: nat)
    ensures p >= 1
  {
    if n == 0 then 1 else 2 * Pow2(n - 1)
  }

  function Pow16(n: nat): (p: nat)
  {
    if n == 0 then 1 else 16 * Pow16(n - 1)
  }

  lemma {:induction false} Pow16IsPow2(n: nat)
    ensures Pow16(n) == Pow2(4 * n)
  {
    if n > 0 {
      Pow16IsPow2(n - 1);
      var m := 4 * (n - 1);
      assert Pow2(m + 4) == 2 * Pow2(m + 3) == 4 * Pow2(m + 2) == 8 * Pow2(m + 1) == 16 * Pow2(m);
    }
  }

  /** The number whose binary numeral is `bits`, the first bit most significant. */
  function BitsValue(bits: seq<bool>): (v: nat)
    ensures v < Pow2(|bits|)
    decreases |bits|
  {
    if |bits| == 0 then 0
    else (if bits[0] then Pow2(|bits| - 1) else 0) + BitsValue(bits[1..])
  }

  /** The number whose hexadecimal numeral is `s`, the first digit most significant. */
  function HexValue(s: string): nat
    requires forall i :: 0 <= i < |s| ==> IsHexDigit(s[i])
    decreases |s|
  {
    if |s| == 0 then 0
    else DigitValue(s[0]).value * Pow16(|s| - 1) + HexValue(s[1..])
  }

  /** The first four bits of a numeral contribute their nibble value, scaled past the rest. */
  lemma BitsValueSplit(bits: seq<bool>)
    requires |bits| >= 4
    ensures BitsValue(bits) == NibbleValue(bits[..4]) * Pow2(|bits| - 4) + BitsValue(bits[4..])
  {
    var n := |bits|;
    var p := Pow2(n - 4);
    assert bits[1..][1..] == bits[2..];
    assert bits[2..][1..] == bits[3..];
    assert bits[3..][1..] == bits[4..];
    assert Pow2(n - 1) == 2 * Pow2(n - 2) == 4 * Pow2(n - 3) == 8 * p;
    var t0, t1, t2, t3 := Scaled(bits[0], 8, p), Scaled(bits[1], 4, p), Scaled(bits[2], 2, p), Scaled(bits[3], 1, p);
    assert BitsValue(bits) == t0 + BitsValue(bits[1..]);
    assert BitsValue(bits[1..]) == t1 + BitsValue(bits[2..]);
    assert BitsValue(bits[2..]) == t2 + BitsValue(bits[3..]);
    assert BitsValue(bits[3..]) == t3 + BitsValue(bits[4..]);
    var a0, a1, a2, a3 := Scaled(bits[0], 8, 1), Scaled(bits[1], 4, 1), Scaled(bits[2], 2, 1), Scaled(bits[3], 1, 1);
    assert NibbleValue(bits[..4]) == a0 + a1 + a2 + a3;
    Distribute(a0, a1, a2, a3, p);
    ScaledTimes(bits[0], 8, p);
    ScaledTimes(bits[1], 4, p);
    ScaledTimes(bits[2], 2, p);
    ScaledTimes(bits[3], 1, p);
  }

  /** `weight * p` when the bit is set, zero otherwise. */
  function Scaled(b: bool, weight: nat, p: nat): nat {
    if b then weight * p else 0
  }

  lemma ScaledTimes(b: bool, weight: nat, p: nat)
    ensures Scaled(b, weight, 1) * p == Scaled(b, weight, p)
  {
    if b {
      assert (weight * 1) * p == weight * p;
    }
  }

  lemma Distribute(a0: nat, a1: nat, a2: nat, a3: nat, p: nat)
    ensures (a0 + a1 + a2 + a3) * p == a0 * p + a1 * p + a2 * p + a3 * p
  {
  }

  lemma {:induction false} HexValueOfEncodeBits(bits: seq<bool>)
    requires |bits| % 4 == 0
    ensures HexValue(EncodeBits(bits)) == BitsValue(bits)
    decreases |bits|
  {
    if |bits| > 0 {
      var s := EncodeBits(bits);
      var v := NibbleValue(bits[..4]);
      DigitOfAlphabet(v);
      assert s[1..] == EncodeBits(bits[4..]);
      HexValueOfEncodeBits(bits[4..]);
      Pow16IsPow2(|s| - 1);
      BitsValueSplit(bits);
    }
  }

  /**
   * The encoding is the hexadecimal numeral of the fingerprint's binary value, zero-padded
   * to 16 digits; that value always fits in 64 bits, so no digit is ever lost.
   */
  lemma EncodeIsPaddedHexNumeral(f: Fingerprint)
    ensures |Encode(f)| == HashDigits
    ensures forall i :: 0 <= i < HashDigits ==> IsHexDigit(Encode(f)[i])
    ensures HexValue(Encode(f)) == BitsValue(f) < Pow2(HashBits)
  {
    HexValueOfEncodeBits(f);
  }

  lemma {:induction false} BitsValueOfDecodeDigits(s: string)
    requires DecodeDigits(s).Some?
    ensures BitsValue(DecodeDigits(s).value) == HexValue(s)
    decreases |s|
  {
    if |s| > 0 {
      var v := DigitValue(s[0]).value;
      var rest := DecodeDigits(s[1..]).value;
      var bits := NibbleBits(v) + rest;
      assert bits[..4] == NibbleBits(v);
      assert bits[4..] == rest;
      BitsValueSplit(bits);
      BitsValueOfDecodeDigits(s[1..]);
      Pow16IsPow2(|s| - 1);
    }
  }

  /** Decoding reads the string as a hexadecimal number and lays that number out as 64 binary digits. */
  lemma DecodeReadsHexNumeral(s: string)
    requires Decode(s).Some?
    ensures BitsValue(Decode(s).value) == HexValue(s)
  {
    BitsValueOfDecodeDigits(s);
  }
}
