/**
 * The frame checksum: an 8-bit XOR over a byte span, written on the wire as
 * two uppercase hexadecimal ASCII digits (`crc.ToString("X2")`), and the
 * inverse reading of one hex pair (`Convert.ToByte(pair, 16)`).
 */
module Checksum {

  import opened Wrappers

  /** XOR of all bytes; 0 for the empty span. */
  function Xor8(s: seq<bv8>): bv8 {
    if s == [] then 0 else s[0] ^ Xor8(s[1..])
  }

  /** Each bit of the checksum is the parity of that bit over the bytes. */
  lemma {:induction false} Xor8Parity(s: seq<bv8>, k: nat)
    requires k < 8
    ensures BitSet(Xor8(s), k) <==> CountSet(s, k) % 2 == 1
    decreases |s|
  {
    if s != [] {
      Xor8Parity(s[1..], k);
      XorBit(s[0], Xor8(s[1..]), k);
      OddStep(BitSet(s[0], k), CountSet(s[1..], k));
    }
  }

  /** Whether bit `k` of `b` is set. */
  predicate BitSet(b: bv8, k: nat)
    requires k < 8
  {
    b & Bit(k) != 0
  }

  /** The byte with only bit `k` set. */
  function Bit(k: nat): bv8
    requires k < 8
  {
    if k == 0 then 0x01 else if k == 1 then 0x02 else if k == 2 then 0x04 else if k == 3 then 0x08
    else if k == 4 then 0x10 else if k == 5 then 0x20 else if k == 6 then 0x40 else 0x80
  }

  /** How many bytes of `s` have bit `k` set. */
  function CountSet(s: seq<bv8>, k: nat): nat
    requires k < 8
  {
    if s == [] then 0 else (if BitSet(s[0], k) then 1 else 0) + CountSet(s[1..], k)
  }

  /** One more counted item flips the parity of the count. */
  lemma OddStep(one: bool, n: nat)
    ensures ((if one then 1 else 0) + n) % 2 == 1 <==> one != (n % 2 == 1)
  {
  }

  /** A bit of `a ^ b` is set exactly when it is set in one of them but not both. */
  lemma XorBit(a: bv8, b: bv8, k: nat)
    requires k < 8
    ensures BitSet(a ^ b, k) <==> BitSet(a, k) != BitSet(b, k)
  {
    assert (a ^ b) & Bit(k) == (a & Bit(k)) ^ (b & Bit(k));
  }

  /** The checksum of two adjacent spans combines by XOR. */
  lemma {:induction false} Xor8Append(s: seq<bv8>, t: seq<bv8>)
    ensures Xor8(s + t) == Xor8(s) ^ Xor8(t)
    decreases |s|
  {
    if s == [] {
      assert s + t == t;
    } else {
      assert (s + t)[1..] == s[1..] + t;
      Xor8Append(s[1..], t);
    }
  }

  /** Folding one more byte into the checksum, as the encoder's loop does. */
  lemma Xor8Snoc(s: seq<bv8>, b: bv8)
    ensures Xor8(s + [b]) == Xor8(s) ^ b
  {
    Xor8Append(s, [b]);
  }

  /** Appending a span's own checksum cancels it: the extended span sums to 0. */
  lemma SelfCancels(s: seq<bv8>)
    ensures Xor8(s + [Xor8(s)]) == 0
  {
    Xor8Snoc(s, Xor8(s));
  }

  /** The checksum does not depend on the order of the two spans. */
  lemma Xor8Swap(s: seq<bv8>, t: seq<bv8>)
    ensures Xor8(s + t) == Xor8(t + s)
  {
    Xor8Append(s, t);
    Xor8Append(t, s);
  }

  predicate IsUpperHexDigit(b: bv8) {
    (0x30 <= b <= 0x39) || (0x41 <= b <= 0x46)
  }

  /** The value of one hex digit in either case ('0'-'9', 'A'-'F', 'a'-'f'). */
  function HexNibble(b: bv8): (r: Option<bv8>)
    ensures r.Some? ==> r.value < 16
    ensures IsUpperHexDigit(b) ==> r.Some?
  {
    if 0x30 <= b <= 0x39 then Some(b - 0x30)
    else if 0x41 <= b <= 0x46 then Some(b - 0x41 + 10)
    else if 0x61 <= b <= 0x66 then Some(b - 0x61 + 10)
    else None
  }

  /** The uppercase ASCII digit for a nibble. */
  function HexDigit(n: bv8): (d: bv8)
    requires n < 16
    ensures IsUpperHexDigit(d) && HexNibble(d) == Some(n)
  {
    if n < 10 then 0x30 + n else 0x41 + (n - 10)
  }

  /** `b.ToString("X2")` as ASCII bytes: high nibble first, zero padded, uppercase. */
  function HexUpper(b: bv8): (r: seq<bv8>)
    ensures |r| == 2 && IsUpperHexDigit(r[0]) && IsUpperHexDigit(r[1])
    ensures HexNibble(r[0]) == Some(b >> 4) && HexNibble(r[1]) == Some(b & 0xF)
  {
    [HexDigit(b >> 4), HexDigit(b & 0xF)]
  }

  /**
   * `Convert.ToByte(pair, 16)` on a two-character string: two hex digits in
   * either case, or a '+' sign and one hex digit. Anything else (a '-' sign,
   * "0x" without digits, whitespace, other characters) throws.
   */
  function ParseHexPair(hi: bv8, lo: bv8): (r: Option<bv8>)
    ensures r.Some? <==> HexNibble(lo).Some? && (HexNibble(hi).Some? || hi == 0x2B)
    ensures r.Some? && hi != 0x2B ==> r.value == (HexNibble(hi).value << 4) | HexNibble(lo).value
    ensures r.Some? && hi == 0x2B ==> r.value == HexNibble(lo).value
  {
    match HexNibble(lo)
    case None => None
    case Some(l) =>
      if hi == 0x2B then Some(l)
      else match HexNibble(hi)
        case None => None
        case Some(h) => Some((h << 4) | l)
  }

  /** Reading back the rendered checksum gives the checksum. */
  lemma HexRoundTrip(b: bv8)
    ensures ParseHexPair(HexUpper(b)[0], HexUpper(b)[1]) == Some(b)
  {
    assert ((b >> 4) << 4) | (b & 0xF) == b;
  }

  /** The uppercase rendering is the only uppercase pair that reads back as `b`. */
  lemma HexCanonical(b: bv8, hi: bv8, lo: bv8)
    requires IsUpperHexDigit(hi) && IsUpperHexDigit(lo)
    ensures ParseHexPair(hi, lo) == Some(b) <==> [hi, lo] == HexUpper(b)
  {
    if ParseHexPair(hi, lo) == Some(b) {
      var h, l := HexNibble(hi).value, HexNibble(lo).value;
      assert ((h << 4) | l) >> 4 == h && ((h << 4) | l) & 0xF == l;
      assert HexDigit(h) == hi && HexDigit(l) == lo;
    } else {
      HexRoundTrip(b);
    }
  }
}
