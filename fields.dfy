/**
 * Splitting a sequence on a separator element, as `String.Split` does with a
 * one-element separator, and dropping empty fields, as
 * `StringSplitOptions.RemoveEmptyEntries` does. Generic so that the same
 * definitions serve decoded text and raw bytes.
 */
module Fields {

  /** Every field between separators, empty ones included; never empty itself. */
  function Split<T(==)>(s: seq<T>, sep: T): (r: seq<seq<T>>)
    ensures |r| >= 1
    decreases |s|
  {
    if sep !in s then [s]
    else
      var i := IndexOf(s, sep);
      [s[..i]] + Split(s[i + 1..], sep)
  }

  /** The position of the first occurrence of `x` in `s`. */
  function IndexOf<T(==)>(s: seq<T>, x: T): (i: nat)
    requires x in s
    ensures i < |s| && s[i] == x && x !in s[..i]
  {
    if s[0] == x then 0 else 1 + IndexOf(s[1..], x)
  }

  /** The fields glued back together with one separator between neighbours. */
  function Join<T>(fs: seq<seq<T>>, sep: T): seq<T>
    requires |fs| >= 1
  {
    if |fs| == 1 then fs[0] else fs[0] + [sep] + Join(fs[1..], sep)
  }

  /** `RemoveEmptyEntries`: the non-empty fields, in order. */
  function NonEmpty<T>(fs: seq<seq<T>>): (r: seq<seq<T>>)
    ensures |r| <= |fs|
    ensures forall i :: 0 <= i < |r| ==> r[i] != [] && r[i] in fs
  {
    if fs == [] then []
    else if fs[0] == [] then NonEmpty(fs[1..])
    else [fs[0]] + NonEmpty(fs[1..])
  }

  predicate SepFree<T(==)>(fs: seq<seq<T>>, sep: T) {
    forall i :: 0 <= i < |fs| ==> sep !in fs[i]
  }

  /** Joining the fields gives back the input, and no field holds a separator. */
  lemma {:induction false} SplitJoin<T>(s: seq<T>, sep: T)
    ensures Join(Split(s, sep), sep) == s
    ensures SepFree(Split(s, sep), sep)
    decreases |s|
  {
    if sep in s {
      var i := IndexOf(s, sep);
      SplitJoin(s[i + 1..], sep);
      assert Split(s, sep)[1..] == Split(s[i + 1..], sep);
      assert s == s[..i] + [sep] + s[i + 1..];
    }
  }

  /** Splitting joined separator-free fields gives back those fields. */
  lemma {:induction false} JoinSplit<T>(fs: seq<seq<T>>, sep: T)
    requires |fs| >= 1 && SepFree(fs, sep)
    ensures Split(Join(fs, sep), sep) == fs
    decreases |fs|
  {
    if |fs| == 1 {
      assert sep !in fs[0];
    } else {
      var head, rest := fs[0], Join(fs[1..], sep);
      var s := head + ([sep] + rest);
      assert Join(fs, sep) == s;
      IndexOfAfterPrefix(head, [sep] + rest, sep);
      assert s[..|head|] == head;
      assert s[|head| + 1..] == rest;
      JoinSplit(fs[1..], sep);
      assert Split(s, sep) == [head] + Split(rest, sep);
    }
  }

  /** The first separator after a separator-free prefix is right after it. */
  lemma IndexOfAfterPrefix<T>(p: seq<T>, q: seq<T>, sep: T)
    requires sep !in p && |q| >= 1 && q[0] == sep
    ensures sep in p + q && IndexOf(p + q, sep) == |p|
  {
    assert (p + q)[|p|] == sep;
    assert (p + q)[..|p|] == p;
  }

  /** Mapping every element of a sequence. */
  function MapSeq<T, U>(f: T -> U, s: seq<T>): (r: seq<U>)
    ensures |r| == |s|
    ensures forall i :: 0 <= i < |s| ==> r[i] == f(s[i])
  {
    if s == [] then [] else [f(s[0])] + MapSeq(f, s[1..])
  }

  /** Mapping every field. */
  function MapFields<T, U>(f: T -> U, fs: seq<seq<T>>): (r: seq<seq<U>>)
    ensures |r| == |fs|
    ensures forall i :: 0 <= i < |fs| ==> r[i] == MapSeq(f, fs[i])
  {
    if fs == [] then [] else [MapSeq(f, fs[0])] + MapFields(f, fs[1..])
  }

  /** Nothing but `sep` has `sep`'s image under `f`. */
  ghost predicate Distinguishes<T(!new), U>(f: T -> U, sep: T) {
    forall x :: f(x) == f(sep) ==> x == sep
  }

  /**
   * When nothing but the separator maps to the separator's image, splitting
   * the mapped sequence on the mapped separator is mapping the fields.
   */
  lemma {:induction false} SplitMap<T(!new), U>(f: T -> U, s: seq<T>, sep: T)
    requires Distinguishes(f, sep)
    ensures Split(MapSeq(f, s), f(sep)) == MapFields(f, Split(s, sep))
    decreases |s|
  {
    var m := MapSeq(f, s);
    SeparatorMap(f, s, sep);
    if sep in s {
      var i := IndexOf(s, sep);
      assert m[..i] == MapSeq(f, s[..i]);
      assert m[i + 1..] == MapSeq(f, s[i + 1..]);
      SplitMap(f, s[i + 1..], sep);
      var fs := Split(s, sep);
      assert fs == [s[..i]] + Split(s[i + 1..], sep);
      assert MapFields(f, fs) == [MapSeq(f, fs[0])] + MapFields(f, fs[1..]);
    }
  }

  /** The mapped separator occurs in the mapped sequence exactly where the separator did. */
  lemma SeparatorMap<T(!new), U>(f: T -> U, s: seq<T>, sep: T)
    requires Distinguishes(f, sep)
    ensures (f(sep) in MapSeq(f, s)) == (sep in s)
    ensures sep in s ==> IndexOf(MapSeq(f, s), f(sep)) == IndexOf(s, sep)
  {
    var m := MapSeq(f, s);
    if f(sep) in m {
      var k :| 0 <= k < |m| && m[k] == f(sep);
      assert s[k] == sep;
    }
    if sep in s {
      var i := IndexOf(s, sep);
      assert m[i] == f(sep);
    }
  }

  /** Dropping empty fields commutes with mapping the fields. */
  lemma {:induction false} NonEmptyMap<T, U>(f: T -> U, fs: seq<seq<T>>)
    ensures NonEmpty(MapFields(f, fs)) == MapFields(f, NonEmpty(fs))
    decreases |fs|
  {
    if fs != [] {
      NonEmptyMap(f, fs[1..]);
      assert MapFields(f, fs)[1..] == MapFields(f, fs[1..]);
      if fs[0] != [] {
        assert MapFields(f, NonEmpty(fs))[1..] == MapFields(f, NonEmpty(fs[1..]));
      }
    }
  }

  /** Dropping empty fields from two runs of fields is dropping them from each run. */
  lemma {:induction false} NonEmptyAppend<T>(a: seq<seq<T>>, b: seq<seq<T>>)
    ensures NonEmpty(a + b) == NonEmpty(a) + NonEmpty(b)
    decreases |a|
  {
    if a == [] {
      assert a + b == b;
    } else {
      assert (a + b)[0] == a[0];
      assert (a + b)[1..] == a[1..] + b;
      NonEmptyAppend(a[1..], b);
    }
  }

  /** A single field survives exactly when it is not empty. */
  lemma NonEmptySingle<T>(x: seq<T>)
    ensures NonEmpty([x]) == if x == [] then [] else [x]
  {
    assert [x][1..] == [];
  }

  /** Non-empty fields are kept whole and in order. */
  lemma {:induction false} NonEmptyKeepsAll<T>(fs: seq<seq<T>>)
    requires forall i :: 0 <= i < |fs| ==> fs[i] != []
    ensures NonEmpty(fs) == fs
    decreases |fs|
  {
    if fs != [] {
      NonEmptyKeepsAll(fs[1..]);
    }
  }
}
