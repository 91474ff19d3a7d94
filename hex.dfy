/**
 * `StringToByteArray`: a string of hex digit pairs turned into bytes, one
 * `Convert.ToByte(pair, 16)` per pair, left to right. A pair that does not
 * parse throws at that pair; an odd trailing character throws when the
 * last two-character substring runs past the end.
 */
module HexText {

  import opened Wrappers
  import opened Text
  import opened Checksum

  /** Why the conversion throws: a pair `Convert.ToByte` rejects, or a lone last character. */
  datatype HexFault = InvalidPair(at: nat) | Truncated

  /** A hexadecimal digit character in either case. */
  predicate IsHexChar(c: char) {
    '0' <= c <= '9' || 'A' <= c <= 'F' || 'a' <= c <= 'f'
  }

  function HexCharValue(c: char): (v: nat)
    requires IsHexChar(c)
    ensures v < 16
  {
    if c <= '9' then c as int - '0' as int
    else if c <= 'F' then c as int - 'A' as int + 10
    else c as int - 'a' as int + 10
  }

  /** `Convert.ToByte` on the characters at `i` and `i + 1`. */
  function PairAt(hex: string, i: nat): Option<bv8>
    requires i + 1 < |hex|
  {
    ParseHexPair(AsciiByte(hex[i]), AsciiByte(hex[i + 1]))
  }

  /**
   * What a pair accepts, in characters: two hex digits, or '+' and one hex
   * digit. Characters outside ASCII become '?' and are rejected with the rest.
   */
  lemma PairAtMeaning(hex: string, i: nat)
    requires i + 1 < |hex|
    ensures var r := PairAt(hex, i);
      && (r.Some? <==> IsHexChar(hex[i + 1]) && (IsHexChar(hex[i]) || hex[i] == '+'))
      && (r.Some? && hex[i] != '+' ==> r.value as int == 16 * HexCharValue(hex[i]) + HexCharValue(hex[i + 1]))
      && (r.Some? && hex[i] == '+' ==> r.value as int == HexCharValue(hex[i + 1]))
  {
    CharNibble(hex[i]);
    CharNibble(hex[i + 1]);
    var r := PairAt(hex, i);
    if r.Some? && hex[i] != '+' {
      NibblePair(HexNibble(AsciiByte(hex[i])).value, HexNibble(AsciiByte(hex[i + 1])).value);
    }
  }

  /** What `HexNibble` reads from the ASCII byte of a character. */
  lemma CharNibble(c: char)
    ensures HexNibble(AsciiByte(c)).Some? <==> IsHexChar(c)
    ensures IsHexChar(c) ==> HexNibble(AsciiByte(c)).value as int == HexCharValue(c)
    ensures AsciiByte(c) == 0x2B <==> c == '+'
  {
  }

  /** Two nibbles side by side make the byte `16 * h + l`. */
  lemma NibblePair(h: bv8, l: bv8)
    requires h < 16 && l < 16
    ensures ((h << 4) | l) as int == 16 * (h as int) + l as int
  {
  }

  /**
   * The bytes `hex` stands for, or the first fault met scanning it
   * left to right; `at` is the offset of `hex` in the whole string.
   */
  function DecodeHex(hex: string, at: nat): (r: Result<seq<bv8>, HexFault>)
    ensures r.Success? ==> 2 * |r.value| == |hex|
    ensures r.Failure? && r.error.InvalidPair? ==> at <= r.error.at && r.error.at + 1 < at + |hex|
  {
    if hex == [] then Success([])
    else if |hex| == 1 then Failure(Truncated)
    else match PairAt(hex, 0)
      case None => Failure(InvalidPair(at))
      case Some(b) =>
        match DecodeHex(hex[2..], at + 2)
        case Success(rest) => Success([b] + rest)
        case Failure(e) => Failure(e)
  }

  /** `bytes` followed by whatever `r` decodes to, or `r`'s fault. */
  function Prepend(bytes: seq<bv8>, r: Result<seq<bv8>, HexFault>): Result<seq<bv8>, HexFault> {
    match r
    case Success(rest) => Success(bytes + rest)
    case Failure(e) => Failure(e)
  }

  /** One step of the scan at offset `i`: the pair there, then the rest. */
  lemma DecodeStep(hex: string, i: nat)
    requires i + 1 < |hex|
    ensures PairAt(hex, i).None? ==> DecodeHex(hex[i..], i) == Failure(InvalidPair(i))
    ensures PairAt(hex, i).Some? ==>
      DecodeHex(hex[i..], i) == Prepend([PairAt(hex, i).value], DecodeHex(hex[i + 2..], i + 2))
  {
    var t := hex[i..];
    assert t[0] == hex[i] && t[1] == hex[i + 1];
    assert PairAt(t, 0) == PairAt(hex, i);
    assert t[2..] == hex[i + 2..];
  }

  /** Prepending in two steps is prepending once. */
  lemma PrependTwice(xs: seq<bv8>, b: bv8, r: Result<seq<bv8>, HexFault>)
    ensures Prepend(xs, Prepend([b], r)) == Prepend(xs + [b], r)
  {
    if r.Success? {
      assert xs + ([b] + r.value) == (xs + [b]) + r.value;
    }
  }

  /** A valid pair at `i` moves one byte from the rest of the scan to what is done. */
  lemma Advance(hex: string, i: nat, done: seq<bv8>)
    requires i + 1 < |hex| && PairAt(hex, i).Some?
    ensures Prepend(done, DecodeHex(hex[i..], i))
      == Prepend(done + [PairAt(hex, i).value], DecodeHex(hex[i + 2..], i + 2))
  {
    DecodeStep(hex, i);
    PrependTwice(done, PairAt(hex, i).value, DecodeHex(hex[i + 2..], i + 2));
  }

  /** A lone last character at `i` is the fault of the whole scan. */
  lemma Cut(hex: string, i: nat, done: seq<bv8>)
    requires i + 1 == |hex|
    ensures Prepend(done, DecodeHex(hex[i..], i)) == Failure(Truncated)
  {
    assert |hex[i..]| == 1;
  }

  /** Past the end, the scan has produced exactly what is done. */
  lemma Finish(hex: string, done: seq<bv8>)
    ensures Prepend(done, DecodeHex(hex[|hex|..], |hex|)) == Success(done)
  {
    assert hex[|hex|..] == [];
    assert done + [] == done;
  }

  /** An invalid pair at `i` is the fault of the whole scan. */
  lemma Halt(hex: string, i: nat, done: seq<bv8>)
    requires i + 1 < |hex| && PairAt(hex, i).None?
    ensures Prepend(done, DecodeHex(hex[i..], i)) == Failure(InvalidPair(i))
  {
    DecodeStep(hex, i);
  }

  /**
   * `StringToByteArray`: an array of `|hex| / 2` bytes filled pair by pair,
   * or the fault the source throws.
   */
  method StringToByteArray(hex: string) returns (r: Result<array<bv8>, HexFault>)
    ensures r.Success? <==> DecodeHex(hex, 0).Success?
    ensures r.Success? ==> fresh(r.value) && r.value[..] == DecodeHex(hex, 0).value
    ensures r.Failure? ==> r.error == DecodeHex(hex, 0).error
  {
    var numberChars := |hex|;
    var bytes := new bv8[numberChars / 2];
    var i, j := 0, 0;
    assert hex[0..] == hex;
    assert bytes[..0] == [];
    PrependNothing(DecodeHex(hex, 0));
    while i < numberChars
      invariant 0 <= i <= numberChars && i == 2 * j && j <= bytes.Length
      invariant DecodeHex(hex, 0) == Prepend(bytes[..j], DecodeHex(hex[i..], i))
      decreases numberChars - i
    {
      if i + 2 > numberChars {
        Cut(hex, i, bytes[..j]);
        return Failure(Truncated);
      }
      var b := PairAt(hex, i);
      if b.None? {
        Halt(hex, i, bytes[..j]);
        return Failure(InvalidPair(i));
      }
      Advance(hex, i, bytes[..j]);
      ghost var before := bytes[..j];
      bytes[j] := b.value;
      assert bytes[..j + 1] == before + [b.value];
      i, j := i + 2, j + 1;
    }
    assert bytes[..j] == bytes[..];
    Finish(hex, bytes[..]);
    return Success(bytes);
  }

  lemma PrependNothing(r: Result<seq<bv8>, HexFault>)
    ensures Prepend([], r) == r
  {
    if r.Success? {
      assert [] + r.value == r.value;
    }
  }

  /** The uppercase hex text of `bs`, two digits per byte, no separators. */
  function HexString(bs: seq<bv8>): (s: string)
    ensures |s| == 2 * |bs|
  {
    if bs == [] then []
    else [AsciiChar(HexUpper(bs[0])[0]), AsciiChar(HexUpper(bs[0])[1])] + HexString(bs[1..])
  }

  /** Converting the hex text of any bytes gives those bytes back. */
  lemma {:induction false} HexStringRoundTrip(bs: seq<bv8>, at: nat)
    ensures DecodeHex(HexString(bs), at) == Success(bs)
    decreases |bs|
  {
    if bs != [] {
      var s := HexString(bs);
      var h := HexUpper(bs[0]);
      AsciiByteOfChar(h[0]);
      AsciiByteOfChar(h[1]);
      HexRoundTrip(bs[0]);
      assert PairAt(s, 0) == Some(bs[0]);
      assert s[2..] == HexString(bs[1..]);
      HexStringRoundTrip(bs[1..], at + 2);
      assert [bs[0]] + bs[1..] == bs;
    }
  }
}
