/**
 * The three array primitives the packet encoder is built from:
 * `Encoding.ASCII.GetBytes` into a fresh array, `Array.Resize` and
 * `Array.Copy`, each with the out-of-range cases the source never reaches
 * excluded by its precondition.
 */
module Arrays {

  import opened Text

  /** `Encoding.ASCII.GetBytes(s)`: a fresh array holding one byte per character. */
  method GetAsciiBytes(s: string) returns (a: array<bv8>)
    ensures fresh(a)
    ensures a[..] == AsciiBytes(s)
  {
    a := new bv8[|s|];
    for i := 0 to |s|
      invariant a[..i] == AsciiBytes(s)[..i]
    {
      AsciiBytesAt(s, i);
      a[i] := AsciiByte(s[i]);
    }
  }

  /** `Array.Resize(ref a, n)`: a fresh array of length `n` starting with `a`'s elements, zero filled. */
  method Resize(a: array<bv8>, n: nat) returns (b: array<bv8>)
    ensures fresh(b) && b.Length == n
    ensures n <= a.Length ==> b[..] == a[..n]
    ensures a.Length <= n ==> b[..a.Length] == a[..]
    ensures forall i :: a.Length <= i < n ==> b[i] == 0
  {
    b := new bv8[n](_ => 0);
    var m := if n <= a.Length then n else a.Length;
    for i := 0 to m
      invariant b[..i] == a[..i]
      invariant forall j :: i <= j < n ==> b[j] == 0
    {
      b[i] := a[i];
    }
  }

  /** `s` with the elements from position `at` on replaced by `t`. */
  function Splice<T>(s: seq<T>, at: nat, t: seq<T>): (r: seq<T>)
    requires at + |t| <= |s|
    ensures |r| == |s|
  {
    s[..at] + t + s[at + |t|..]
  }

  lemma SpliceEmpty<T>(s: seq<T>, at: nat)
    requires at <= |s|
    ensures Splice(s, at, []) == s
  {
    assert s[..at] + s[at..] == s;
  }

  /** `Array.Copy(src, srcIndex, dst, dstIndex, length)` between distinct arrays. */
  method Copy(src: array<bv8>, srcIndex: nat, dst: array<bv8>, dstIndex: nat, length: nat)
    requires src != dst
    requires srcIndex + length <= src.Length && dstIndex + length <= dst.Length
    modifies dst
    ensures dst[..] == Splice(old(dst[..]), dstIndex, src[srcIndex..srcIndex + length])
  {
    for k := 0 to length
      invariant dst[..dstIndex] == old(dst[..dstIndex])
      invariant dst[dstIndex..dstIndex + k] == src[srcIndex..srcIndex + k]
      invariant dst[dstIndex + length..] == old(dst[dstIndex + length..])
    {
      dst[dstIndex + k] := src[srcIndex + k];
    }
    assert dst[..] == dst[..dstIndex] + dst[dstIndex..dstIndex + length] + dst[dstIndex + length..];
  }
}
