/**
 * Reading the shift flag out of the status reply: `Byte.Parse` on the
 * second parameter (integer style: surrounding white space, an optional
 * sign, decimal digits, a value from 0 to 255), the byte put into a
 * `BitArray` (bit 0 first) and bit 2 taken.
 */
module Status {

  import opened Wrappers
  import opened Text

  /** The white space `Byte.Parse` skips on either side of the number. */
  predicate IsParseWhite(c: char) {
    c == ' ' || '\t' <= c <= '\r'
  }

  /** `s` without its leading white space. */
  function TrimLeading(s: string): (r: string)
    ensures |r| <= |s|
    ensures r != [] ==> !IsParseWhite(r[0])
  {
    if s != [] && IsParseWhite(s[0]) then TrimLeading(s[1..]) else s
  }

  /** `s` without its trailing white space. */
  function TrimTrailing(s: string): (r: string)
    ensures |r| <= |s|
    ensures r != [] ==> !IsParseWhite(r[|r| - 1])
  {
    if s != [] && IsParseWhite(s[|s| - 1]) then TrimTrailing(s[..|s| - 1]) else s
  }

  predicate AllWhite(s: string) {
    forall i :: 0 <= i < |s| ==> IsParseWhite(s[i])
  }

  /** What `TrimLeading` removes is a run of white space at the front, and nothing else. */
  lemma {:induction false} TrimLeadingMeaning(s: string)
    ensures var r := TrimLeading(s);
      r == s[|s| - |r|..] && AllWhite(s[..|s| - |r|])
    decreases |s|
  {
    if s != [] && IsParseWhite(s[0]) {
      TrimLeadingMeaning(s[1..]);
      var r := TrimLeading(s[1..]);
      assert s[1..][|s| - 1 - |r|..] == s[|s| - |r|..];
      assert s[..|s| - |r|] == [s[0]] + s[1..][..|s| - 1 - |r|];
    }
  }

  /** What `TrimTrailing` removes is a run of white space at the end, and nothing else. */
  lemma {:induction false} TrimTrailingMeaning(s: string)
    ensures var r := TrimTrailing(s);
      r == s[..|r|] && AllWhite(s[|r|..])
    decreases |s|
  {
    if s != [] && IsParseWhite(s[|s| - 1]) {
      var u := s[..|s| - 1];
      TrimTrailingMeaning(u);
      var r := TrimTrailing(u);
      assert u[..|r|] == s[..|r|];
      assert s[|r|..] == u[|r|..] + [s[|s| - 1]];
    }
  }

  /** White space in front of text that starts with something else is removed, and only it. */
  lemma {:induction false} TrimLeadingWhite(w: string, x: string)
    requires AllWhite(w)
    requires x != [] ==> !IsParseWhite(x[0])
    ensures TrimLeading(w + x) == x
    decreases |w|
  {
    if w == [] {
      assert w + x == x;
    } else {
      assert (w + x)[0] == w[0];
      assert (w + x)[1..] == w[1..] + x;
      TrimLeadingWhite(w[1..], x);
    }
  }

  /** White space after text that ends with something else is removed, and only it. */
  lemma {:induction false} TrimTrailingWhite(y: string, w: string)
    requires AllWhite(w)
    requires y != [] ==> !IsParseWhite(y[|y| - 1])
    ensures TrimTrailing(y + w) == y
    decreases |w|
  {
    if w == [] {
      assert y + w == y;
    } else {
      var s := y + w;
      assert s[|s| - 1] == w[|w| - 1];
      assert s[..|s| - 1] == y + w[..|w| - 1];
      TrimTrailingWhite(y, w[..|w| - 1]);
    }
  }

  /** Trimming text wrapped in white space gives the text back when it starts and ends with something else. */
  lemma TrimSurrounded(w1: string, t: string, w2: string)
    requires AllWhite(w1) && AllWhite(w2)
    requires t != [] && !IsParseWhite(t[0]) && !IsParseWhite(t[|t| - 1])
    ensures TrimTrailing(TrimLeading(w1 + t + w2)) == t
  {
    assert w1 + t + w2 == w1 + (t + w2);
    assert (t + w2)[0] == t[0];
    TrimLeadingWhite(w1, t + w2);
    TrimTrailingWhite(t, w2);
  }

  predicate AllDigits(s: string) {
    forall i :: 0 <= i < |s| ==> IsDecimalDigit(s[i])
  }

  /** The number a sign-free run of digits stands for, if it fits in a byte. */
  function ByteValue(digits: string, negative: bool): (r: Option<nat>)
    ensures r.Some? ==> r.value < 256
  {
    if digits == [] || !AllDigits(digits) then None
    else
      var v := DecimalValue(digits);
      if negative && v != 0 then None
      else if v > 255 then None
      else Some(v)
  }

  /**
   * `Byte.Parse(s)`: None where it throws (no digits, a stray character,
   * a negative value other than zero, a value above 255).
   */
  function ParseByte(s: string): (r: Option<nat>)
    ensures r.Some? ==> r.value < 256
  {
    var t := TrimTrailing(TrimLeading(s));
    if t == [] then None
    else if t[0] == '-' then ByteValue(t[1..], true)
    else if t[0] == '+' then ByteValue(t[1..], false)
    else ByteValue(t, false)
  }

  /** `new BitArray(new byte[] { b })`: the eight bits of `b`, least significant first. */
  function BitArrayOf(b: nat): (bits: seq<bool>)
    requires b < 256
    ensures |bits| == 8
  {
    Bits(b, 8)
  }

  function Bits(b: nat, k: nat): (bits: seq<bool>)
    ensures |bits| == k
  {
    if k == 0 then [] else [b % 2 == 1] + Bits(b / 2, k - 1)
  }

  /** The number a sequence of bits stands for, least significant first. */
  function BitsValue(bits: seq<bool>): nat {
    if bits == [] then 0 else (if bits[0] then 1 else 0) + 2 * BitsValue(bits[1..])
  }

  function Pow2(k: nat): (p: nat)
    ensures p >= 1
  {
    if k == 0 then 1 else 2 * Pow2(k - 1)
  }

  /** The bits read back as the byte they came from: bit i weighs 2^i. */
  lemma {:induction false} BitsRoundTrip(b: nat, k: nat)
    requires b < Pow2(k)
    ensures BitsValue(Bits(b, k)) == b
    decreases k
  {
    if k > 0 {
      BitsRoundTrip(b / 2, k - 1);
      assert Bits(b, k)[1..] == Bits(b / 2, k - 1);
    }
  }

  lemma BitArrayRoundTrip(b: nat)
    requires b < 256
    ensures BitsValue(BitArrayOf(b)) == b
  {
    assert Pow2(8) == 256;
    BitsRoundTrip(b, 8);
  }

  /** The shift flag: bit 2 of the parsed second status parameter, or None where the parse throws. */
  function ShiftOpen(param: string): (r: Option<bool>)
    ensures r.Some? <==> ParseByte(param).Some?
  {
    match ParseByte(param)
    case None => None
    case Some(b) => Some(BitArrayOf(b)[2])
  }

  /** Bit 2 is set exactly when the byte's value modulo 8 is at least 4. */
  lemma BitTwo(b: nat)
    requires b < 256
    ensures BitArrayOf(b)[2] <==> b % 8 >= 4
  {
    var half := b / 2;
    assert Bits(b, 8)[2] == Bits(half, 7)[1];
    assert Bits(half, 7)[1] == Bits(half / 2, 6)[0];
    Quarter(b);
  }

  lemma Quarter(b: nat)
    ensures (b / 2 / 2) % 2 == 1 <==> b % 8 >= 4
  {
    var q, r := b / 8, b % 8;
    assert b == 8 * q + r;
    assert b / 2 / 2 == 2 * q + r / 4;
  }

  /** Text that neither starts nor ends with white space is left as it is. */
  lemma TrimNothing(s: string)
    requires s != [] && !IsParseWhite(s[0]) && !IsParseWhite(s[|s| - 1])
    ensures TrimTrailing(TrimLeading(s)) == s
  {
  }

  /** A decimal rendering of a byte value parses back to that value. */
  lemma ParseDecimal(n: nat)
    requires n < 256
    ensures ParseByte(DecimalString(n)) == Some(n)
  {
    var s := DecimalString(n);
    TrimNothing(s);
    DecimalRoundTrip(n);
  }

  /** White space before the number does not change what it parses to. */
  lemma ParseIgnoresLeadingWhite(c: char, s: string)
    requires IsParseWhite(c)
    ensures ParseByte([c] + s) == ParseByte(s)
  {
    assert ([c] + s)[1..] == s;
    assert TrimLeading([c] + s) == TrimLeading(s);
  }

  /**
   * The shift is open exactly when the second status parameter parses to a
   * byte whose bit 2 is set.
   */
  lemma ShiftOpenMeaning(param: string)
    ensures ShiftOpen(param) == Some(true) <==> ParseByte(param).Some? && ParseByte(param).value % 8 >= 4
    ensures ShiftOpen(param) == Some(false) <==> ParseByte(param).Some? && ParseByte(param).value % 8 < 4
  {
    if ParseByte(param).Some? {
      BitTwo(ParseByte(param).value);
    }
  }

  /** The decimal rendering of a byte value reports bit 2 of that value. */
  lemma ShiftOpenOfDecimal(n: nat)
    requires n < 256
    ensures ShiftOpen(DecimalString(n)) == Some(n % 8 >= 4)
  {
    ParseDecimal(n);
    BitTwo(n);
  }

  /**
   * The accepted form: white space, an optional sign, one or more digits,
   * white space. It parses to the digits' value when that value fits in a
   * byte, and to nothing otherwise; after a minus sign only zero is accepted.
   */
  lemma ParseSigned(w1: string, sign: string, d: string, w2: string)
    requires AllWhite(w1) && AllWhite(w2)
    requires sign == [] || sign == ['-'] || sign == ['+']
    requires d != [] && AllDigits(d)
    ensures ParseByte(w1 + sign + d + w2) ==
      if sign == ['-'] && DecimalValue(d) != 0 then None
      else if DecimalValue(d) > 255 then None
      else Some(DecimalValue(d))
  {
    var s, t := w1 + sign + d + w2, sign + d;
    SignedDigits(sign, d);
    Regroup(w1, sign, d, w2);
    TrimSurrounded(w1, t, w2);
    ParseTrimmed(s, t);
  }

  lemma Regroup(a: string, b: string, c: string, d: string)
    ensures a + b + c + d == a + (b + c) + d
  {
  }

  /**
   * The only text `ParseByte` accepts is white space, an optional sign, one
   * or more digits and white space: anything else made of those characters
   * (empty text, inner white space, two signs, a sign after the digits) throws.
   */
  lemma ParseByteForm(s: string)
    requires ParseByte(s).Some?
    ensures exists w1, sign, d, w2 :: NumberForm(s, w1, sign, d, w2)
  {
    var w1, t, w2 := TrimParts(s);
    ParseTrimmed(s, t);
    var sign, d;
    if t[0] == '-' || t[0] == '+' {
      sign, d := [t[0]], t[1..];
      assert t == sign + d;
    } else {
      sign, d := [], t;
      assert t == sign + d;
    }
    Regroup(w1, sign, d, w2);
    assert NumberForm(s, w1, sign, d, w2);
  }

  /** Text is the white space trimming removes on either side around what it keeps. */
  lemma TrimParts(s: string) returns (w1: string, t: string, w2: string)
    ensures t == TrimTrailing(TrimLeading(s))
    ensures AllWhite(w1) && AllWhite(w2) && s == w1 + t + w2
  {
    var u := TrimLeading(s);
    TrimLeadingMeaning(s);
    w1 := s[..|s| - |u|];
    assert s == w1 + u;
    t := TrimTrailing(u);
    TrimTrailingMeaning(u);
    w2 := u[|t|..];
    assert u == t + w2;
    Associate(w1, t, w2);
  }

  /** `s` is white space `w1`, an optional sign, digits `d` and white space `w2`. */
  predicate NumberForm(s: string, w1: string, sign: string, d: string, w2: string) {
    && AllWhite(w1) && AllWhite(w2)
    && (sign == [] || sign == ['-'] || sign == ['+'])
    && d != [] && AllDigits(d)
    && s == w1 + sign + d + w2
  }

  lemma Associate(a: string, b: string, c: string)
    ensures a + (b + c) == a + b + c
  {
  }

  /** What `ParseByte` does once the text is trimmed to `t`. */
  lemma ParseTrimmed(s: string, t: string)
    requires TrimTrailing(TrimLeading(s)) == t && t != []
    ensures ParseByte(s) ==
      if t[0] == '-' then ByteValue(t[1..], true)
      else if t[0] == '+' then ByteValue(t[1..], false)
      else ByteValue(t, false)
  {
  }

  /** A sign and digits start and end with something other than white space; the sign, if any, is first. */
  lemma SignedDigits(sign: string, d: string)
    requires sign == [] || sign == ['-'] || sign == ['+']
    requires d != [] && AllDigits(d)
    ensures var t := sign + d;
      && t != [] && !IsParseWhite(t[0]) && !IsParseWhite(t[|t| - 1])
      && (sign == [] ==> t == d && t[0] != '-' && t[0] != '+')
      && (sign != [] ==> t[0] == sign[0] && t[1..] == d)
  {
    var t := sign + d;
    assert IsDecimalDigit(d[0]) && IsDecimalDigit(d[|d| - 1]);
    assert t[|t| - 1] == d[|d| - 1];
    if sign != [] {
      assert t[1..] == d;
    }
  }

  /**
   * A character that is neither white space, a sign nor a digit, anywhere in
   * the text, makes the parse throw.
   */
  lemma NonNumericFails(s: string, i: nat)
    requires i < |s|
    requires !IsParseWhite(s[i]) && s[i] != '+' && s[i] != '-' && !IsDecimalDigit(s[i])
    ensures ParseByte(s) == None
  {
    var u := TrimLeading(s);
    TrimLeadingMeaning(s);
    var k := |s| - |u|;
    assert i >= k;
    assert u[i - k] == s[i];
    var t := TrimTrailing(u);
    TrimTrailingMeaning(u);
    assert i - k < |t|;
    assert t[i - k] == s[i];
    if i - k > 0 && (t[0] == '-' || t[0] == '+') {
      assert t[1..][i - k - 1] == s[i];
    }
  }

  /** A minus sign before a non-zero value makes the parse throw; "-0" reads as 0. */
  lemma ParseNegative(n: nat)
    ensures ParseByte(['-'] + DecimalString(n)) == if n == 0 then Some(0) else None
  {
    var s := DecimalString(n);
    var t := ['-'] + s;
    assert t[|t| - 1] == s[|s| - 1];
    TrimNothing(t);
    assert t[1..] == s;
    DecimalRoundTrip(n);
  }

  /** A value above 255 makes the parse throw. */
  lemma ParseOverflow(n: nat)
    requires n > 255
    ensures ParseByte(DecimalString(n)) == None
  {
    var s := DecimalString(n);
    TrimNothing(s);
    DecimalRoundTrip(n);
  }
}
