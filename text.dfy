/**
 * The two text encodings the tool relies on: .NET's `Encoding.ASCII`
 * (7-bit, everything else becomes '?') and the decimal rendering of a
 * non-negative integer (`int.ToString()`).
 */
module Text {

  /** The byte `Encoding.ASCII` substitutes for a character it cannot encode. */
  const Question: bv8 := 0x3F

  predicate IsAscii(c: char) {
    c as int < 0x80
  }

  /** `Encoding.ASCII.GetBytes` applied to one character. */
  function AsciiByte(c: char): (b: bv8)
    ensures b < 0x80
    ensures IsAscii(c) ==> b as int == c as int
    ensures !IsAscii(c) ==> b == Question
  {
    if IsAscii(c) then ByteOf(c as int) else Question
  }

  /** The byte with value `n`, assembled bit by bit from the most significant end. */
  function ByteOf(n: nat): (b: bv8)
    requires n < 0x100
    ensures b as int == n
  {
    if n == 0 then 0
    else
      var high := ByteOf(n / 2);
      DoubleByte(high, n % 2 == 1);
      high * 2 + (if n % 2 == 1 then 1 else 0)
  }

  lemma DoubleByte(x: bv8, odd: bool)
    requires x < 0x80
    ensures (x * 2 + (if odd then 1 else 0)) as int == 2 * (x as int) + (if odd then 1 else 0)
  {
  }

  /** `Encoding.ASCII.GetBytes`: one byte per character. */
  function AsciiBytes(s: string): (r: seq<bv8>)
    ensures |r| == |s|
  {
    if s == [] then [] else [AsciiByte(s[0])] + AsciiBytes(s[1..])
  }

  lemma {:induction false} AsciiBytesAt(s: string, i: nat)
    requires i < |s|
    ensures AsciiBytes(s)[i] == AsciiByte(s[i])
  {
    if i > 0 {
      AsciiBytesAt(s[1..], i - 1);
    }
  }

  /** `Encoding.ASCII.GetString` applied to one byte. */
  function AsciiChar(b: bv8): (c: char)
    ensures IsAscii(c)
    ensures b < 0x80 ==> c as int == b as int
    ensures b >= 0x80 ==> c == '?'
  {
    if b < 0x80 then b as int as char else '?'
  }

  /** `Encoding.ASCII.GetString`: one character per byte. */
  function AsciiString(bs: seq<bv8>): (s: string)
    ensures |s| == |bs|
    ensures forall i :: 0 <= i < |s| ==> IsAscii(s[i])
  {
    if bs == [] then [] else [AsciiChar(bs[0])] + AsciiString(bs[1..])
  }

  lemma {:induction false} AsciiStringAt(bs: seq<bv8>, i: nat)
    requires i < |bs|
    ensures AsciiString(bs)[i] == AsciiChar(bs[i])
  {
    if i > 0 {
      AsciiStringAt(bs[1..], i - 1);
    }
  }

  /** A 7-bit character survives encoding and decoding. */
  lemma AsciiCharOfByte(c: char)
    requires IsAscii(c)
    ensures AsciiChar(AsciiByte(c)) == c
  {
  }

  /** A 7-bit byte survives decoding and encoding. */
  lemma AsciiByteOfChar(b: bv8)
    requires b < 0x80
    ensures AsciiByte(AsciiChar(b)) == b
  {
  }

  /** Decoding the ASCII bytes of a 7-bit string gives the string back. */
  lemma AsciiRoundTrip(s: string)
    requires forall i :: 0 <= i < |s| ==> IsAscii(s[i])
    ensures AsciiString(AsciiBytes(s)) == s
  {
    var r := AsciiString(AsciiBytes(s));
    assert |r| == |s|;
    forall i | 0 <= i < |s| ensures r[i] == s[i] {
      AsciiBytesAt(s, i);
      AsciiStringAt(AsciiBytes(s), i);
      AsciiCharOfByte(s[i]);
    }
  }

  predicate IsDecimalDigit(c: char) {
    '0' <= c <= '9'
  }

  function DigitValue(c: char): (d: nat)
    requires IsDecimalDigit(c)
    ensures d < 10
  {
    c as int - '0' as int
  }

  function DigitChar(d: nat): (c: char)
    requires d < 10
    ensures IsDecimalDigit(c) && DigitValue(c) == d
  {
    ('0' as int + d) as char
  }

  /** The value of a string of decimal digits, most significant first. */
  function DecimalValue(s: string): nat
    requires forall i :: 0 <= i < |s| ==> IsDecimalDigit(s[i])
  {
    if s == [] then 0 else DecimalValue(s[..|s| - 1]) * 10 + DigitValue(s[|s| - 1])
  }

  /** `n.ToString()` for a non-negative `n`: the shortest decimal digit string. */
  function DecimalString(n: nat): (s: string)
    ensures |s| >= 1
    ensures forall i :: 0 <= i < |s| ==> IsDecimalDigit(s[i])
    ensures |s| > 1 ==> s[0] != '0'
    decreases n
  {
    if n < 10 then [DigitChar(n)] else DecimalString(n / 10) + [DigitChar(n % 10)]
  }

  /** Reading back the decimal rendering of `n` gives `n`. */
  lemma {:induction false} DecimalRoundTrip(n: nat)
    ensures DecimalValue(DecimalString(n)) == n
    decreases n
  {
    var s := DecimalString(n);
    if n >= 10 {
      DecimalRoundTrip(n / 10);
      assert s[..|s| - 1] == DecimalString(n / 10);
    }
  }

  /** The decimal rendering is ASCII, so `Encoding.ASCII` keeps it intact. */
  lemma DecimalStringIsAscii(n: nat)
    ensures forall i :: 0 <= i < |DecimalString(n)| ==> IsAscii(DecimalString(n)[i])
  {
  }
}
